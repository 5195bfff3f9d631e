/** The output side of `exec`: limited buffers, the completion sentinel, and the loop that reads
    frames until it appears. A byte is written as the character latin-1 decodes it to, which is
    how the code itself looks for the sentinel. */
module ExecStream {
  import opened Text

  function Prefix(s: string, limit: nat): string {
    if |s| <= limit then s else s[..limit]
  }

  class LimitedBuffer {
    var buffer: string
    const limit: nat
    var truncated: bool
    ghost var appended: string  // everything ever passed to Append

    /** The first `limit` bytes of all that was appended; truncated when there was more. */
    ghost predicate Valid()
      reads this
    {
      buffer == Prefix(appended, limit) && (truncated <==> |appended| > limit)
    }

    constructor (limit: nat)
      ensures Valid() && this.limit == limit && appended == ""
    {
      buffer := "";
      this.limit := limit;
      truncated := false;
      appended := "";
    }

    method Append(data: string)
      requires Valid()
      modifies this
      ensures Valid() && appended == old(appended) + data
    {
      appended := appended + data;
      if truncated {
        return;
      }
      var remaining := limit - |buffer|;
      if |data| > remaining {
        truncated := true;
      }
      buffer := buffer + Prefix(data, remaining);
    }
  }

  // ---- The sentinel ----

  predicate OneAngle(m: string) {
    m != "" && m[0] == '<' && forall k :: 1 <= k < |m| ==> m[k] != '<'
  }

  /** The text a sentinel opens with. All that matters about it is that `<` stands at its front and
      nowhere else. */
  type Mark = m: string | OneAngle(m) witness "<"

  const COMPLETED: Mark := "<completed-sentinel-value-"

  function LeadingDigits(s: string): (n: nat)
    ensures n <= |s| && AllDigits(s[..n])
  {
    if s == "" || !IsDigit(s[0]) then 0 else 1 + LeadingDigits(s[1..])
  }

  function Value(digits: string): nat
    requires AllDigits(digits)
  {
    if digits == "" then 0
    else 10 * Value(digits[..|digits| - 1]) + (digits[|digits| - 1] as nat - '0' as nat)
  }

  /** A match of the sentinel pattern: the text before it, the number in it, the text after it. */
  datatype Match = Match(before: string, code: nat, after: string)

  /** A sentinel standing at the front of `s`: the mark, at least one digit, `>`. */
  function MatchHere(m: Mark, s: string): (r: Option<Match>)
    ensures r.Some? ==> |m| < |s| && |r.value.after| < |s| - |m|
  {
    if !(m <= s) then None
    else
      var t := s[|m|..];
      var d := LeadingDigits(t);
      if 0 < d < |t| && t[d] == '>' then Some(Match("", Value(t[..d]), t[d + 1..])) else None
  }

  /** The leftmost match. */
  function FindMatch(m: Mark, s: string): (r: Option<Match>)
    ensures r.Some? ==> |r.value.after| < |s|
  {
    var here := MatchHere(m, s);
    if here.Some? then here
    else if s == "" then None
    else
      match FindMatch(m, s[1..])
      case None => None
      case Some(f) => Some(f.(before := [s[0]] + f.before))
  }

  /** A frame without its first sentinel, and the return code in it. Splitting at every match and
      keeping the first three parts drops whatever follows a second match. */
  function FilterSentinel(m: Mark, frame: string): (string, Option<nat>) {
    match FindMatch(m, frame)
    case None => (frame, None)
    case Some(first) =>
      var second := FindMatch(m, first.after);
      (first.before + (if second.Some? then second.value.before else first.after), Some(first.code))
  }

  /** What the shell script echoes when the command is done. */
  function Sentinel(m: Mark, returncode: nat): string {
    m + DecimalNat(returncode) + ">"
  }

  predicate NoSentinel(m: Mark, s: string) {
    FindMatch(m, s).None?
  }

  lemma {:induction false} DigitsThenOther(d: string, t: string)
    requires AllDigits(d) && t != "" && !IsDigit(t[0])
    ensures LeadingDigits(d + t) == |d|
  {
    if d == "" {
      assert d + t == t;
    } else {
      assert (d + t)[1..] == d[1..] + t;
      DigitsThenOther(d[1..], t);
    }
  }

  lemma {:induction false} ValueOfDecimal(n: nat)
    ensures Value(DecimalNat(n)) == n
  {
    var s := DecimalNat(n);
    assert Digit(n % 10) as nat - '0' as nat == n % 10;
    if n < 10 {
      assert s[..|s| - 1] == "";
    } else {
      assert s[..|s| - 1] == DecimalNat(n / 10);
      ValueOfDecimal(n / 10);
    }
  }

  lemma {:induction false} DigitsOfPart(s: string, t: string)
    ensures LeadingDigits(s) < |s| || LeadingDigits(s + t) < |s| ==> LeadingDigits(s + t) == LeadingDigits(s)
    ensures LeadingDigits(s) == |s| ==> LeadingDigits(s + t) >= |s|
  {
    if s != "" {
      assert (s + t)[1..] == s[1..] + t;
      DigitsOfPart(s[1..], t);
    }
  }

  /** A match stays a match when text is appended, and one that fits in the first part is a match
      of that part. */
  lemma MatchOfPart(m: Mark, s: string, t: string)
    ensures MatchHere(m, s).Some? <==>
            MatchHere(m, s + t).Some? && |MatchHere(m, s + t).value.after| >= |t|
  {
    if m <= s {
      assert m <= s + t && (s + t)[|m|..] == s[|m|..] + t;
      DigitsOfPart(s[|m|..], t);
    }
  }

  /** Past its front a match holds no `<`. */
  lemma MatchHasOneAngle(m: Mark, s: string)
    requires MatchHere(m, s).Some?
    ensures forall k :: 1 <= k < |s| - |MatchHere(m, s).value.after| ==> s[k] != '<'
  {
    var t := s[|m|..];
    var d := LeadingDigits(t);
    forall k | 1 <= k < |m| + d + 1 ensures s[k] != '<' {
      if k < |m| {
        assert s[..|m|][k] == m[k];
      } else if k < |m| + d {
        assert t[..d][k - |m|] == s[k];
      } else {
        assert t[d] == s[k];
      }
    }
  }

  lemma {:induction false} NoSentinelInPrefix(m: Mark, s: string, t: string)
    requires NoSentinel(m, s + t)
    ensures NoSentinel(m, s)
  {
    MatchOfPart(m, s, t);
    if s != "" {
      assert (s + t)[1..] == s[1..] + t;
      NoSentinelInPrefix(m, s[1..], t);
    }
  }

  lemma {:induction false} NoSentinelInSuffix(m: Mark, s: string, t: string)
    requires NoSentinel(m, s + t)
    ensures NoSentinel(m, t)
  {
    if s == "" {
      assert s + t == t;
    } else {
      assert (s + t)[1..] == s[1..] + t;
      NoSentinelInSuffix(m, s[1..], t);
    }
  }

  lemma NoMatchAtFront(m: Mark, u: string, t: string)
    requires u != "" && NoSentinel(m, u) && MatchHere(m, t).Some?
    ensures MatchHere(m, u + t).None?
  {
    assert t[0] == m[0] == '<' && (u + t)[|u|] == t[0];
    MatchOfPart(m, u, t);
    if MatchHere(m, u + t).Some? {
      MatchHasOneAngle(m, u + t);
    }
  }

  lemma {:induction false} FirstMatchAfter(m: Mark, u: string, t: string)
    requires NoSentinel(m, u) && MatchHere(m, t).Some?
    ensures FindMatch(m, u + t) == Some(MatchHere(m, t).value.(before := u))
  {
    if u == "" {
      assert u + t == t;
    } else {
      NoMatchAtFront(m, u, t);
      FirstMatchAfter(m, u[1..], t);
      FirstMatchOneAfter(m, u, t);
    }
  }

  lemma FirstMatchOneAfter(m: Mark, u: string, t: string)
    requires u != "" && MatchHere(m, u + t).None? && MatchHere(m, t).Some?
    requires FindMatch(m, u[1..] + t) == Some(MatchHere(m, t).value.(before := u[1..]))
    ensures FindMatch(m, u + t) == Some(MatchHere(m, t).value.(before := u))
  {
    assert [u[0]] + u[1..] == u;
    Associates([u[0]], u[1..], t);
    FindFurther(m, u[0], u[1..] + t);
  }

  lemma FindFurther(m: Mark, x: char, s: string)
    requires MatchHere(m, [x] + s).None? && FindMatch(m, s).Some?
    ensures FindMatch(m, [x] + s) == Some(FindMatch(m, s).value.(before := [x] + FindMatch(m, s).value.before))
  {
    assert ([x] + s)[1..] == s;
  }

  /** However the user's output ends or goes on, the sentinel is the one match: matches cannot
      overlap it. Filtering removes it, reads its code, and keeps everything else. */
  lemma SentinelIsTheOnlyMatch(m: Mark, u: string, rc: nat, v: string)
    requires NoSentinel(m, u) && NoSentinel(m, v)
    ensures FindMatch(m, u + (Sentinel(m, rc) + v)) == Some(Match(u, rc, v))
    ensures FilterSentinel(m, u + (Sentinel(m, rc) + v)) == (u + v, Some(rc))
  {
    SentinelInFront(m, rc, v);
    FirstMatchAfter(m, u, Sentinel(m, rc) + v);
  }

  lemma SentinelInFront(m: Mark, rc: nat, v: string)
    ensures MatchHere(m, Sentinel(m, rc) + v) == Some(Match("", rc, v))
  {
    var d, s := DecimalNat(rc), Sentinel(m, rc) + v;
    assert s[|m|..] == d + (">" + v);
    DigitsThenOther(d, ">" + v);
    assert (d + (">" + v))[..|d|] == d && (d + (">" + v))[|d| + 1..] == v;
    ValueOfDecimal(rc);
  }

  // ---- What counts as a sentinel ----

  /** The mark, at least one digit, `>`, and any text. */
  predicate Marked(m: Mark, s: string, digits: string, w: string) {
    digits != "" && AllDigits(digits) && s == m + digits + ">" + w
  }

  lemma MatchOfMarked(m: Mark, s: string, digits: string, w: string)
    requires Marked(m, s, digits, w)
    ensures MatchHere(m, s) == Some(Match("", Value(digits), w))
  {
    var tail := digits + (">" + w);
    assert s == m + tail && s[..|m|] == m && s[|m|..] == tail;
    DigitsThenOther(digits, ">" + w);
    assert tail[..|digits|] == digits && tail[|digits| + 1..] == w;
  }

  lemma MarkedOfMatch(m: Mark, s: string)
    requires MatchHere(m, s).Some?
    ensures exists digits :: Marked(m, s, digits, MatchHere(m, s).value.after)
  {
    var t := s[|m|..];
    var d := LeadingDigits(t);
    assert s == m + t && t == t[..d] + ">" + t[d + 1..];
    assert m + (t[..d] + ">" + t[d + 1..]) == m + t[..d] + ">" + t[d + 1..];
    assert Marked(m, s, t[..d], t[d + 1..]);
  }

  /** The match found is a marked text that stands there. */
  lemma {:induction false} FoundIsMarked(m: Mark, s: string)
    requires FindMatch(m, s).Some?
    ensures var f := FindMatch(m, s).value;
      |f.before| <= |s| && s[..|f.before|] == f.before && exists digits :: Marked(m, s[|f.before|..], digits, f.after)
  {
    if MatchHere(m, s).Some? {
      MarkedOfMatch(m, s);
      assert s[0..] == s;
    } else {
      FoundIsMarked(m, s[1..]);
      var f, f1 := FindMatch(m, s).value, FindMatch(m, s[1..]).value;
      assert s[|f.before|..] == s[1..][|f1.before|..];
    }
  }

  lemma {:induction false} MarkedIsFound(m: Mark, u: string, s: string)
    requires MatchHere(m, s).Some?
    ensures FindMatch(m, u + s).Some?
  {
    if u == "" {
      assert u + s == s;
    } else {
      assert (u + s)[1..] == u[1..] + s;
      MarkedIsFound(m, u[1..], s);
    }
  }

  /** A text has a sentinel exactly when the mark, at least one digit and `>` follow each other in it. */
  lemma SentinelIff(m: Mark, s: string)
    ensures !NoSentinel(m, s) <==> exists u, digits, w :: digits != "" && AllDigits(digits) && s == u + (m + digits + ">" + w)
  {
    if FindMatch(m, s).Some? {
      FoundIsMarked(m, s);
      var f := FindMatch(m, s).value;
      var digits :| Marked(m, s[|f.before|..], digits, f.after);
      assert s == f.before + (m + digits + ">" + f.after);
    }
    forall u, digits, w | digits != "" && AllDigits(digits) && s == u + (m + digits + ">" + w) ensures FindMatch(m, s).Some? {
      MatchOfMarked(m, m + digits + ">" + w, digits, w);
      MarkedIsFound(m, u, m + digits + ">" + w);
    }
  }

  // ---- The reading loop ----

  /** One pass of the loop: stderr and stdout bytes that are ready (either may be empty), or the
      connection lost, possibly after some stderr. */
  datatype Event = Frames(err: string, out: string) | Lost(err: string)

  datatype End =
    | Finished(returncode: int, stdout: string, stderr: string, sawSentinel: bool)
    | LimitExceeded(outPrefix: string, errPrefix: string)
    | ConnectionLost
    | NoReturncode

  /** The outcome over unbounded accumulators. `channel` is the return code the status channel
      carries once the server has closed the connection; `closeFails` says whether closing the
      socket on our side raises. */
  function StreamSpec(m: Mark, events: seq<Event>, out: string, err: string, closeFails: bool, channel: Option<int>, limit: nat): End {
    if events == [] then
      if channel.Some? then Finished(channel.value, Prefix(out, limit), Prefix(err, limit), false) else NoReturncode
    else match events[0]
      case Lost(_) => ConnectionLost
      case Frames(e, o) =>
        var (text, returncode) := FilterSentinel(m, o);
        var out', err' := out + text, err + e;
        if (|out'| > limit || |err'| > limit) && !(returncode.Some? && closeFails) then
          LimitExceeded(Prefix(out', limit), Prefix(err', limit))
        else if returncode.Some? then Finished(returncode.value, Prefix(out', limit), Prefix(err', limit), true)
        else StreamSpec(m, events[1..], out', err', closeFails, channel, limit)
  }

  lemma EmptyFrame(m: Mark)
    ensures FilterSentinel(m, "") == ("", None)
  {
  }

  method StreamOutput(m: Mark, events: seq<Event>, closeFails: bool, channel: Option<int>, limit: nat) returns (end: End)
    ensures end == StreamSpec(m, events, "", "", closeFails, channel, limit)
  {
    var stdout := new LimitedBuffer(limit);
    var stderr := new LimitedBuffer(limit);
    var returncode: Option<nat> := None;
    var open := true;
    var i := 0;
    ghost var rest := events;
    while open && i < |events|
      invariant 0 <= i <= |events| && stdout != stderr
      invariant fresh(stdout) && fresh(stderr) && stdout.Valid() && stderr.Valid()
      invariant stdout.limit == stderr.limit == limit
      invariant open <==> returncode.None?
      invariant open ==> !stdout.truncated && !stderr.truncated
      invariant rest == events[i..]
      invariant StreamSpec(m, events, "", "", closeFails, channel, limit) ==
                if open then StreamSpec(m, rest, stdout.appended, stderr.appended, closeFails, channel, limit)
                else Finished(returncode.value, stdout.buffer, stderr.buffer, true)
      decreases |events| - i
    {
      var event := events[i];
      ghost var before := (stdout.appended, stderr.appended);
      assert rest[0] == event;
      i, rest := i + 1, rest[1..];
      if event.err != "" {
        stderr.Append(event.err);
      }
      assert before.1 + "" == before.1;
      if event.Lost? {
        return ConnectionLost;
      }
      assert stderr.appended == before.1 + event.err;
      EmptyFrame(m);
      assert before.0 + "" == before.0;
      if event.out != "" {
        var (filtered, rc) := FilterSentinel(m, event.out);
        returncode := rc;
        stdout.Append(filtered);
        if returncode.Some? {
          open := false;
          if closeFails {
            break;
          }
        }
      }
      assert stdout.appended == before.0 + FilterSentinel(m, event.out).0;
      if stdout.truncated || stderr.truncated {
        return LimitExceeded(stdout.buffer, stderr.buffer);
      }
    }
    if returncode.Some? {
      end := Finished(returncode.value, stdout.buffer, stderr.buffer, true);
    } else if channel.Some? {
      end := Finished(channel.value, stdout.buffer, stderr.buffer, false);
    } else {
      end := NoReturncode;
    }
  }

  // ---- What the loop computes ----

  predicate NoneLost(events: seq<Event>) {
    forall i :: 0 <= i < |events| ==> events[i].Frames?
  }

  function RawOut(events: seq<Event>): string {
    if events == [] then "" else (if events[0].Frames? then events[0].out else "") + RawOut(events[1..])
  }

  function RawErr(events: seq<Event>): string {
    if events == [] then "" else events[0].err + RawErr(events[1..])
  }

  /** The stdout of these passes with each frame's sentinel taken out. */
  function FilteredOut(m: Mark, events: seq<Event>): string {
    if events == [] then ""
    else (if events[0].Frames? then FilterSentinel(m, events[0].out).0 else "") + FilteredOut(m, events[1..])
  }

  predicate HasSentinel(m: Mark, event: Event) {
    event.Frames? && FilterSentinel(m, event.out).1.Some?
  }

  /** The passes the loop gets to finish: up to and including the first sentinel, and none from a
      lost connection on. */
  function Consumed(m: Mark, events: seq<Event>): seq<Event> {
    if events == [] || events[0].Lost? then []
    else if HasSentinel(m, events[0]) then [events[0]]
    else [events[0]] + Consumed(m, events[1..])
  }

  predicate Over(out: string, err: string, limit: nat) {
    |out| > limit || |err| > limit
  }

  /** The passes after which the limit is checked: all that are consumed, except a sentinel's own
      pass when closing the socket raised. */
  function Checked(m: Mark, events: seq<Event>, closeFails: bool): seq<Event> {
    var consumed := Consumed(m, events);
    if closeFails && consumed != [] && HasSentinel(m, consumed[|consumed| - 1]) then consumed[..|consumed| - 1] else consumed
  }

  lemma CheckedStep(m: Mark, events: seq<Event>, closeFails: bool)
    requires events != [] && events[0].Frames? && !HasSentinel(m, events[0])
    ensures var done, done1 := Checked(m, events, closeFails), Checked(m, events[1..], closeFails);
      && FilteredOut(m, done) == FilterSentinel(m, events[0].out).0 + FilteredOut(m, done1)
      && RawErr(done) == events[0].err + RawErr(done1)
  {
    var c, c1 := Consumed(m, events), Consumed(m, events[1..]);
    assert c == [events[0]] + c1;
    var done, done1 := Checked(m, events, closeFails), Checked(m, events[1..], closeFails);
    assert done == [events[0]] + done1;
    assert done[1..] == done1;
  }

  lemma CheckedLast(m: Mark, events: seq<Event>, closeFails: bool)
    requires events != [] && HasSentinel(m, events[0])
    ensures var done := Checked(m, events, closeFails);
      && FilteredOut(m, done) == (if closeFails then "" else FilterSentinel(m, events[0].out).0)
      && RawErr(done) == (if closeFails then "" else events[0].err)
  {
    var one := [events[0]];
    assert Consumed(m, events) == one && one[..0] == [] && one[1..] == [];
    assert FilteredOut(m, one[1..]) == "" && RawErr(one[1..]) == "";
    assert FilteredOut(m, one) == FilterSentinel(m, events[0].out).0 + "";
    assert RawErr(one) == events[0].err + "";
  }

  /** The limit error comes exactly when a stream's filtered total, over the passes that are
      checked, exceeds the limit. */
  lemma {:induction false} LimitErrorIffOver(m: Mark, events: seq<Event>, out: string, err: string, closeFails: bool, channel: Option<int>, limit: nat)
    requires !Over(out, err, limit)
    ensures StreamSpec(m, events, out, err, closeFails, channel, limit).LimitExceeded? <==>
            var done := Checked(m, events, closeFails);
            Over(out + FilteredOut(m, done), err + RawErr(done), limit)
  {
    if events != [] && events[0].Frames? {
      var out', err' := out + FilterSentinel(m, events[0].out).0, err + events[0].err;
      if HasSentinel(m, events[0]) {
        CheckedLast(m, events, closeFails);
      } else {
        CheckedStep(m, events, closeFails);
        if !Over(out', err', limit) {
          LimitErrorIffOver(m, events[1..], out', err', closeFails, channel, limit);
        }
      }
    }
  }

  /** The error's two texts are prefixes of the totals, and for a stream that went over, its whole
      first `limit` bytes. */
  predicate Carries(end: End, allOut: string, allErr: string, limit: nat) {
    && end.LimitExceeded? && end.outPrefix <= allOut && end.errPrefix <= allErr
    && ((|allOut| > limit && end.outPrefix == allOut[..limit]) || (|allErr| > limit && end.errPrefix == allErr[..limit]))
  }

  lemma CarriesHere(out: string, err: string, more: string, moreErr: string, limit: nat)
    requires Over(out, err, limit)
    ensures Carries(LimitExceeded(Prefix(out, limit), Prefix(err, limit)), out + more, err + moreErr, limit)
  {
    if |out| > limit {
      assert (out + more)[..limit] == out[..limit];
    } else {
      assert (err + moreErr)[..limit] == err[..limit];
    }
  }

  /** What the limit error carries: prefixes of those totals. */
  lemma {:induction false} LimitErrorCarriesPrefixes(m: Mark, events: seq<Event>, out: string, err: string, closeFails: bool, channel: Option<int>, limit: nat)
    requires !Over(out, err, limit)
    requires StreamSpec(m, events, out, err, closeFails, channel, limit).LimitExceeded?
    ensures Carries(StreamSpec(m, events, out, err, closeFails, channel, limit),
                    out + FilteredOut(m, Checked(m, events, closeFails)),
                    err + RawErr(Checked(m, events, closeFails)), limit)
  {
    if HasSentinel(m, events[0]) {
      CarriesLast(m, events, out, err, closeFails, channel, limit);
    } else {
      var text, e := FilterSentinel(m, events[0].out).0, events[0].err;
      CheckedStep(m, events, closeFails);
      var done1 := Checked(m, events[1..], closeFails);
      var more, moreErr := FilteredOut(m, done1), RawErr(done1);
      if Over(out + text, err + e, limit) {
        CarriesHere(out + text, err + e, more, moreErr, limit);
      } else {
        LimitErrorCarriesPrefixes(m, events[1..], out + text, err + e, closeFails, channel, limit);
      }
      Associates(out, text, more);
      Associates(err, e, moreErr);
    }
  }

  lemma CarriesLast(m: Mark, events: seq<Event>, out: string, err: string, closeFails: bool, channel: Option<int>, limit: nat)
    requires events != [] && HasSentinel(m, events[0])
    requires StreamSpec(m, events, out, err, closeFails, channel, limit).LimitExceeded?
    ensures Carries(StreamSpec(m, events, out, err, closeFails, channel, limit),
                    out + FilteredOut(m, Checked(m, events, closeFails)),
                    err + RawErr(Checked(m, events, closeFails)), limit)
  {
    var out', err' := out + FilterSentinel(m, events[0].out).0, err + events[0].err;
    CheckedLast(m, events, closeFails);
    CarriesHere(out', err', "", "", limit);
    assert out' + "" == out' && err' + "" == err';
  }

  /** Output over the limit goes unreported exactly when closing the socket fails on the pass that
      brought the sentinel, and it was that pass that went over. */
  lemma TruncationHiddenIff(m: Mark, events: seq<Event>, closeFails: bool, channel: Option<int>, limit: nat)
    ensures var c := Consumed(m, events); var end := StreamSpec(m, events, "", "", closeFails, channel, limit);
      && (Over(FilteredOut(m, c), RawErr(c), limit) && !end.LimitExceeded?
         <==> closeFails && c != [] && HasSentinel(m, c[|c| - 1]) && Over(FilteredOut(m, c), RawErr(c), limit)
              && !Over(FilteredOut(m, c[..|c| - 1]), RawErr(c[..|c| - 1]), limit))
      && (end.LimitExceeded? ==> Over(FilteredOut(m, c), RawErr(c), limit))
  {
    var c := Consumed(m, events);
    var done := Checked(m, events, closeFails);
    LimitErrorIffOver(m, events, "", "", closeFails, channel, limit);
    assert "" + FilteredOut(m, done) == FilteredOut(m, done) && "" + RawErr(done) == RawErr(done);
    if c != [] {
      LastPassGrows(m, c);
    }
  }

  lemma LastPassGrows(m: Mark, c: seq<Event>)
    requires c != []
    ensures var init := c[..|c| - 1]; |FilteredOut(m, c)| >= |FilteredOut(m, init)| && |RawErr(c)| >= |RawErr(init)|
  {
    assert c == c[..|c| - 1] + [c[|c| - 1]];
    TotalsGrow(m, c[..|c| - 1], c[|c| - 1]);
  }

  /** A pass more never shortens the totals. */
  lemma {:induction false} TotalsGrow(m: Mark, events: seq<Event>, event: Event)
    ensures |FilteredOut(m, events + [event])| >= |FilteredOut(m, events)|
    ensures |RawErr(events + [event])| >= |RawErr(events)|
  {
    if events != [] {
      assert (events + [event])[1..] == events[1..] + [event];
      TotalsGrow(m, events[1..], event);
    }
  }

  /** When closing the socket raises on the sentinel's own pass, output over the limit comes back
      cut off and looks complete. */
  lemma FailedCloseHidesTruncation(m: Mark)
    ensures var frame := "ab" + Sentinel(m, 0);
            StreamSpec(m, [Frames("", frame)], "", "", true, None, 1) == Finished(0, "a", "", true)
  {
    assert NoSentinel(m, "ab") && NoSentinel(m, "");
    SentinelIsTheOnlyMatch(m, "ab", 0, "");
    assert Sentinel(m, 0) + "" == Sentinel(m, 0) && "ab" + "" == "ab" && "" + "ab" == "ab";
    assert Prefix("ab", 1) == "a";
  }

  /** Frames of text with no sentinel in it go through whole. */
  lemma {:induction false} PlainFrames(m: Mark, events: seq<Event>, rest: seq<Event>, out: string, err: string,
                                       closeFails: bool, channel: Option<int>, limit: nat)
    requires NoneLost(events) && NoSentinel(m, RawOut(events))
    requires !Over(out + RawOut(events), err + RawErr(events), limit)
    ensures StreamSpec(m, events + rest, out, err, closeFails, channel, limit)
         == StreamSpec(m, rest, out + RawOut(events), err + RawErr(events), closeFails, channel, limit)
  {
    var all := RawOut(events);
    if events == [] {
      assert events + rest == rest && out + "" == out && err + "" == err;
    } else {
      var o, e := events[0].out, events[0].err;
      NoSentinelInPrefix(m, o, RawOut(events[1..]));
      NoSentinelInSuffix(m, o, RawOut(events[1..]));
      assert (events + rest)[1..] == events[1..] + rest && (events + rest)[0] == events[0];
      assert out + all == (out + o) + RawOut(events[1..]);
      assert err + RawErr(events) == (err + e) + RawErr(events[1..]);
      PlainFrames(m, events[1..], rest, out + o, err + e, closeFails, channel, limit);
    }
  }

  /** The bytes delivered up to the sentinel's pass are user output `u`, the sentinel, and whatever
      output `v` followed it in that pass; the cut into frames keeps the sentinel whole. */
  predicate Delivers(m: Mark, before: seq<Event>, last: Event, u: string, rc: nat, v: string) {
    && NoneLost(before) && last.Frames?
    && RawOut(before) + last.out == u + (Sentinel(m, rc) + v)
    && |RawOut(before)| <= |u|
  }

  /** The sentinel's frame holds the end of the user's output, the sentinel, and what followed. */
  lemma SentinelFrame(m: Mark, before: seq<Event>, last: Event, u: string, rc: nat, v: string)
    requires Delivers(m, before, last, u, rc, v) && NoSentinel(m, u) && NoSentinel(m, v)
    ensures NoSentinel(m, RawOut(before))
    ensures FilterSentinel(m, last.out).1 == Some(rc)
    ensures RawOut(before) + FilterSentinel(m, last.out).0 == u + v
  {
    var head := RawOut(before);
    var u1 := u[|head|..];
    SplitWithin(head, last.out, u, Sentinel(m, rc) + v);
    assert u == head + u1;
    NoSentinelInPrefix(m, head, u1);
    NoSentinelInSuffix(m, head, u1);
    SentinelIsTheOnlyMatch(m, u1, rc, v);
    Associates(head, u1, v);
  }

  /** For every framing: exec ends with the printed return code and with stdout from which only
      the sentinel is missing. Nothing about the frames is left in the result. */
  lemma ResultIndependentOfFraming(m: Mark, before: seq<Event>, last: Event, rest: seq<Event>, u: string, rc: nat, v: string,
                                   closeFails: bool, channel: Option<int>, limit: nat)
    requires Delivers(m, before, last, u, rc, v) && NoSentinel(m, u) && NoSentinel(m, v)
    requires !Over(u + v, RawErr(before) + last.err, limit)
    ensures StreamSpec(m, before + [last] + rest, "", "", closeFails, channel, limit)
         == Finished(rc, u + v, RawErr(before) + last.err, true)
  {
    SentinelFrame(m, before, last, u, rc, v);
    var out, err, tail := RawOut(before), RawErr(before), [last] + rest;
    assert before + [last] + rest == before + tail && tail[0] == last;
    assert "" + out == out && "" + err == err;
    assert |out| <= |u + v|;
    PlainFrames(m, before, tail, "", "", closeFails, channel, limit);
    assert StreamSpec(m, tail, out, err, closeFails, channel, limit) == Finished(rc, u + v, err + last.err, true);
  }

  /** Output that background processes add after the sentinel is delivered only as far as it comes in the
      sentinel's own frame: the same bytes, framed in two ways, give different results. */
  lemma LateOutputDependsOnFraming(m: Mark, rc: nat, v: string, limit: nat)
    requires NoSentinel(m, v) && v != "" && |v| <= limit
    ensures StreamSpec(m, [Frames("", Sentinel(m, rc) + v)], "", "", false, None, limit) == Finished(rc, v, "", true)
    ensures StreamSpec(m, [Frames("", Sentinel(m, rc)), Frames("", v)], "", "", false, None, limit) == Finished(rc, "", "", true)
  {
    var e1, e2 := Frames("", Sentinel(m, rc) + v), Frames("", Sentinel(m, rc));
    assert NoSentinel(m, "") && "" + v == v && "" + "" == "";
    assert "" + (Sentinel(m, rc) + v) == Sentinel(m, rc) + v && "" + (Sentinel(m, rc) + "") == Sentinel(m, rc);
    assert RawOut([]) + e1.out == e1.out && RawOut([]) + e2.out == e2.out;
    ResultIndependentOfFraming(m, [], e1, [], "", rc, v, false, None, limit);
    ResultIndependentOfFraming(m, [], e2, [Frames("", v)], "", rc, "", false, None, limit);
    assert [] + [e1] + [] == [e1] && [] + [e2] + [Frames("", v)] == [e2, Frames("", v)];
  }

  /** A second sentinel in the frame takes the text after it along: only what stands between the two is
      kept, and the code is the first one's. */
  lemma SecondSentinelCutsOff(m: Mark, u: string, rc: nat, v: string, rc': nat, w: string)
    requires NoSentinel(m, u) && NoSentinel(m, v)
    ensures FilterSentinel(m, u + (Sentinel(m, rc) + (v + (Sentinel(m, rc') + w)))) == (u + v, Some(rc))
  {
    SentinelInFront(m, rc, v + (Sentinel(m, rc') + w));
    SentinelInFront(m, rc', w);
    FirstMatchAfter(m, u, Sentinel(m, rc) + (v + (Sentinel(m, rc') + w)));
    FirstMatchAfter(m, v, Sentinel(m, rc') + w);
  }

  /** The loop got to a sentinel. */
  predicate SawSentinel(m: Mark, events: seq<Event>) {
    var c := Consumed(m, events);
    c != [] && HasSentinel(m, c[|c| - 1])
  }

  lemma ConsumedStep(m: Mark, events: seq<Event>)
    requires SawSentinel(m, events)
    ensures events[0].Frames? && var c := Consumed(m, events);
      if HasSentinel(m, events[0]) then
        c == [events[0]] && FilteredOut(m, c) == FilterSentinel(m, events[0].out).0 && RawErr(c) == events[0].err
      else
        var c1 := Consumed(m, events[1..]);
        && SawSentinel(m, events[1..]) && c[|c| - 1] == c1[|c1| - 1]
        && FilteredOut(m, c) == FilterSentinel(m, events[0].out).0 + FilteredOut(m, c1) && RawErr(c) == events[0].err + RawErr(c1)
  {
    var c := Consumed(m, events);
    if HasSentinel(m, events[0]) {
      assert c[1..] == [];
      assert FilteredOut(m, c[1..]) == "" && RawErr(c[1..]) == "";
    } else {
      assert c == [events[0]] + Consumed(m, events[1..]) && c[1..] == Consumed(m, events[1..]);
    }
  }

  /** A sentinel ends the run with its own code and the output up to its pass, unless the limit error
      came. */
  lemma {:induction false} SentinelEnd(m: Mark, events: seq<Event>, out: string, err: string, closeFails: bool, channel: Option<int>, limit: nat)
    requires SawSentinel(m, events) && !StreamSpec(m, events, out, err, closeFails, channel, limit).LimitExceeded?
    ensures var c := Consumed(m, events);
      StreamSpec(m, events, out, err, closeFails, channel, limit) ==
        Finished(FilterSentinel(m, c[|c| - 1].out).1.value, Prefix(out + FilteredOut(m, c), limit), Prefix(err + RawErr(c), limit), true)
  {
    ConsumedStep(m, events);
    if !HasSentinel(m, events[0]) {
      var text, e := FilterSentinel(m, events[0].out).0, events[0].err;
      SentinelEnd(m, events[1..], out + text, err + e, closeFails, channel, limit);
      Associates(out, text, FilteredOut(m, Consumed(m, events[1..])));
      Associates(err, e, RawErr(Consumed(m, events[1..])));
    }
  }

  // ---- Ends without a sentinel ----

  /** Every pass brings frames, and none of them a sentinel. */
  predicate AllPlain(m: Mark, events: seq<Event>) {
    forall i :: 0 <= i < |events| ==> events[i].Frames? && NoSentinel(m, events[i].out)
  }

  /** The connection is lost on the k-th pass, with no sentinel and no more than the limit before it. */
  predicate LostAt(m: Mark, events: seq<Event>, out: string, err: string, limit: nat, k: nat) {
    && k < |events| && events[k].Lost? && AllPlain(m, events[..k])
    && !Over(out + RawOut(events[..k]), err + RawErr(events[..k]), limit)
  }

  lemma PlainTotals(events: seq<Event>, out: string, err: string)
    requires events != [] && events[0].Frames?
    ensures out + RawOut(events) == (out + events[0].out) + RawOut(events[1..])
    ensures err + RawErr(events) == (err + events[0].err) + RawErr(events[1..])
  {
  }

  /** Without a sentinel the return code is the status channel's, and the output is all there is. */
  lemma {:induction false} PlainEnd(m: Mark, events: seq<Event>, out: string, err: string, closeFails: bool, channel: Option<int>, limit: nat)
    requires AllPlain(m, events) && !Over(out + RawOut(events), err + RawErr(events), limit)
    ensures StreamSpec(m, events, out, err, closeFails, channel, limit)
         == if channel.Some? then Finished(channel.value, out + RawOut(events), err + RawErr(events), false) else NoReturncode
  {
    if events == [] {
      assert out + "" == out && err + "" == err;
    } else {
      PlainTotals(events, out, err);
      PlainEnd(m, events[1..], out + events[0].out, err + events[0].err, closeFails, channel, limit);
    }
  }

  lemma LostLater(m: Mark, events: seq<Event>, out: string, err: string, limit: nat, k: nat)
    requires events != [] && events[0].Frames? && NoSentinel(m, events[0].out) && k + 1 < |events|
    ensures LostAt(m, events, out, err, limit, k + 1) <==> LostAt(m, events[1..], out + events[0].out, err + events[0].err, limit, k)
  {
    var init := events[..k + 1];
    assert init[0] == events[0] && init[1..] == events[1..][..k];
    PlainTotals(init, out, err);
    assert AllPlain(m, init) <==> AllPlain(m, init[1..]) by {
      assert forall i :: 0 <= i < k ==> init[1..][i] == init[i + 1];
      assert forall i :: 0 < i < k + 1 ==> init[i] == init[1..][i - 1];
    }
  }

  lemma LostNow(m: Mark, events: seq<Event>, out: string, err: string, limit: nat)
    requires !Over(out, err, limit) && events != []
    ensures LostAt(m, events, out, err, limit, 0) <==> events[0].Lost?
  {
    assert events[..0] == [] && out + "" == out && err + "" == err;
  }

  lemma NotLostAfter(m: Mark, events: seq<Event>, out: string, err: string, limit: nat, k: nat)
    requires k > 0 && LostAt(m, events, out, err, limit, k)
    ensures events[0].Frames? && NoSentinel(m, events[0].out) && !Over(out + events[0].out, err + events[0].err, limit)
  {
    var init := events[..k];
    assert init[0] == events[0];
    PlainTotals(init, out, err);
  }

  /** The connection counts as lost exactly when it is lost before a sentinel and before the limit is
      passed. */
  lemma {:induction false} LostIff(m: Mark, events: seq<Event>, out: string, err: string, closeFails: bool, channel: Option<int>, limit: nat)
    requires !Over(out, err, limit)
    ensures StreamSpec(m, events, out, err, closeFails, channel, limit) == ConnectionLost
       <==> exists k :: LostAt(m, events, out, err, limit, k)
  {
    if events != [] {
      LostNow(m, events, out, err, limit);
      if events[0].Frames? {
        var out', err' := out + FilterSentinel(m, events[0].out).0, err + events[0].err;
        if !HasSentinel(m, events[0]) && !Over(out', err', limit) {
          LostIff(m, events[1..], out', err', closeFails, channel, limit);
          if k: nat :| LostAt(m, events[1..], out', err', limit, k) {
            LostLater(m, events, out, err, limit, k);
          }
          if k: nat :| LostAt(m, events, out, err, limit, k) && k > 0 {
            LostLater(m, events, out, err, limit, k - 1);
          }
        } else if k: nat :| LostAt(m, events, out, err, limit, k) && k > 0 {
          NotLostAfter(m, events, out, err, limit, k);
        }
      }
    }
  }

  lemma EndsOtherwise(m: Mark, events: seq<Event>, closeFails: bool, channel: Option<int>, limit: nat)
    ensures var end := StreamSpec(m, events, "", "", closeFails, channel, limit);
      && (AllPlain(m, events) && !Over(RawOut(events), RawErr(events), limit) ==>
            end == if channel.Some? then Finished(channel.value, RawOut(events), RawErr(events), false) else NoReturncode)
      && (end == ConnectionLost <==> exists k :: LostAt(m, events, "", "", limit, k))
  {
    assert "" + RawOut(events) == RawOut(events) && "" + RawErr(events) == RawErr(events);
    if AllPlain(m, events) && !Over(RawOut(events), RawErr(events), limit) {
      PlainEnd(m, events, "", "", closeFails, channel, limit);
    }
    LostIff(m, events, "", "", closeFails, channel, limit);
  }

  lemma LimitError(m: Mark, events: seq<Event>, closeFails: bool, channel: Option<int>, limit: nat)
    ensures var end, done, c := StreamSpec(m, events, "", "", closeFails, channel, limit), Checked(m, events, closeFails), Consumed(m, events);
      && (end.LimitExceeded? <==> Over(FilteredOut(m, done), RawErr(done), limit))
      && (end.LimitExceeded? ==> Carries(end, FilteredOut(m, done), RawErr(done), limit))
      && (SawSentinel(m, events) && !end.LimitExceeded? ==>
            end == Finished(FilterSentinel(m, c[|c| - 1].out).1.value, Prefix(FilteredOut(m, c), limit), Prefix(RawErr(c), limit), true))
  {
    var done, c := Checked(m, events, closeFails), Consumed(m, events);
    assert "" + FilteredOut(m, done) == FilteredOut(m, done) && "" + RawErr(done) == RawErr(done);
    assert "" + FilteredOut(m, c) == FilteredOut(m, c) && "" + RawErr(c) == RawErr(c);
    LimitErrorIffOver(m, events, "", "", closeFails, channel, limit);
    if StreamSpec(m, events, "", "", closeFails, channel, limit).LimitExceeded? {
      LimitErrorCarriesPrefixes(m, events, "", "", closeFails, channel, limit);
    } else if SawSentinel(m, events) {
      SentinelEnd(m, events, "", "", closeFails, channel, limit);
    }
  }

  /** `_handle_shell_output` with the sentinel the code uses: however the output was framed, it ends
      with the text around the sentinel and the code in it. Without a sentinel it ends with the status
      channel's code and all the output; and with a lost connection exactly when that comes before a
      sentinel and before the limit is passed. */
  method HandleShellOutput(events: seq<Event>, closeFails: bool, channel: Option<int>, limit: nat) returns (end: End)
    ensures forall before, last, rest, u, rc: nat, v ::
      && events == before + [last] + rest && Delivers(COMPLETED, before, last, u, rc, v)
      && NoSentinel(COMPLETED, u) && NoSentinel(COMPLETED, v) && !Over(u + v, RawErr(before) + last.err, limit)
      ==> end == Finished(rc, u + v, RawErr(before) + last.err, true)
    ensures AllPlain(COMPLETED, events) && !Over(RawOut(events), RawErr(events), limit) ==>
      end == if channel.Some? then Finished(channel.value, RawOut(events), RawErr(events), false) else NoReturncode
    ensures end == ConnectionLost <==> exists k :: LostAt(COMPLETED, events, "", "", limit, k)
    ensures var done := Checked(COMPLETED, events, closeFails);
      && (end.LimitExceeded? <==> Over(FilteredOut(COMPLETED, done), RawErr(done), limit))
      && (end.LimitExceeded? ==> Carries(end, FilteredOut(COMPLETED, done), RawErr(done), limit))
    ensures SawSentinel(COMPLETED, events) && !end.LimitExceeded? ==>
      var c := Consumed(COMPLETED, events);
      end == Finished(FilterSentinel(COMPLETED, c[|c| - 1].out).1.value, Prefix(FilteredOut(COMPLETED, c), limit), Prefix(RawErr(c), limit), true)
  {
    end := StreamOutput(COMPLETED, events, closeFails, channel, limit);
    forall before, last, rest, u, rc: nat, v |
      && events == before + [last] + rest && Delivers(COMPLETED, before, last, u, rc, v)
      && NoSentinel(COMPLETED, u) && NoSentinel(COMPLETED, v) && !Over(u + v, RawErr(before) + last.err, limit)
      ensures end == Finished(rc, u + v, RawErr(before) + last.err, true)
    {
      ResultIndependentOfFraming(COMPLETED, before, last, rest, u, rc, v, closeFails, channel, limit);
    }
    EndsOtherwise(COMPLETED, events, closeFails, channel, limit);
    LimitError(COMPLETED, events, closeFails, channel, limit);
  }
}
