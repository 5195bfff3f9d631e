/** Writing a file to a pod and reading it back: chunked stdin, `head -c` on the far side, frames cut
    anywhere, and up to five attempts that may each leave something partial behind. */
module FileTransfer {
  import opened Text
  import opened Retry

  // ---- Writing ----

  /** The stdin frames: `data` cut every `chunk` bytes. */
  method WriteStdinChunked(data: string, chunk: nat) returns (frames: seq<string>)
    requires chunk > 0
    ensures Concat(frames) == data
    ensures forall i :: 0 <= i < |frames| ==> 0 < |frames[i]| <= chunk && (i < |frames| - 1 ==> |frames[i]| == chunk)
  {
    frames := [];
    var i := 0;
    while i < |data|
      invariant 0 <= i && Concat(frames) == data[..if i <= |data| then i else |data|]
      invariant forall j :: 0 <= j < |frames| ==> 0 < |frames[j]| <= chunk && (i <= |data| || j < |frames| - 1 ==> |frames[j]| == chunk)
    {
      var end := if i + chunk <= |data| then i + chunk else |data|;
      ConcatAppends(frames, [data[i..end]]);
      assert Concat([data[i..end]]) == data[i..end] + [];
      assert data[..i] + data[i..end] == data[..end];
      frames := frames + [data[i..end]];
      i := i + chunk;
    }
    assert data[..|data|] == data;
  }

  function Take(s: string, n: nat): string {
    if |s| <= n then s else s[..n]
  }

  /** What a byte stream arrives as: frames of these sizes, then one frame with all that is left. A
      size may be zero. */
  function Recut(stream: string, sizes: seq<nat>): seq<string> {
    if sizes == [] then [stream]
    else [Take(stream, sizes[0])] + Recut(stream[|Take(stream, sizes[0])|..], sizes[1..])
  }

  /** Recutting loses and reorders nothing. */
  lemma {:induction false} RecutKeepsTheBytes(stream: string, sizes: seq<nat>)
    ensures Concat(Recut(stream, sizes)) == stream
  {
    if sizes == [] {
      assert stream + [] == stream;
    } else {
      var first := Take(stream, sizes[0]);
      RecutKeepsTheBytes(stream[|first|..], sizes[1..]);
      assert first + stream[|first|..] == stream;
    }
  }

  lemma RecutStep(first: string, rest: string, sizes: seq<nat>)
    ensures Recut(first + rest, [|first|] + sizes) == [first] + Recut(rest, sizes)
  {
    var stream := first + rest;
    assert Take(stream, |first|) == first && stream[|first|..] == rest;
    assert ([|first|] + sizes)[1..] == sizes;
  }

  /** Every way of splitting a stream into frames is a recutting. */
  lemma {:induction false} EverySplittingIsARecut(frames: seq<string>) returns (sizes: seq<nat>)
    requires frames != []
    ensures Recut(Concat(frames), sizes) == frames
  {
    if |frames| == 1 {
      sizes := [];
      assert frames[1..] == [] && frames[0] + [] == frames[0];
      assert frames == [frames[0]];
    } else {
      var rest := EverySplittingIsARecut(frames[1..]);
      sizes := [|frames[0]|] + rest;
      RecutStep(frames[0], Concat(frames[1..]), rest);
      assert frames == [frames[0]] + frames[1..];
    }
  }

  /** A file on the pod; None while it does not exist. */
  class RemoteFile {
    var content: Option<string>

    constructor (content: Option<string>)
      ensures this.content == content
    {
      this.content := content;
    }

    /** `head -c size > file`: the stdin frames as they arrive, up to `size` bytes in all. */
    method Head(frames: seq<string>, size: nat)
      modifies this
      ensures content == Some(Take(Concat(frames), size))
    {
      var written := "";
      var i := 0;
      while i < |frames| && |written| < size
        invariant 0 <= i <= |frames|
        invariant written == Take(Concat(frames[..i]), size)
      {
        FramesGrow(frames, i);
        written := written + Take(frames[i], size - |written|);
        i := i + 1;
      }
      if i < |frames| {
        assert frames == frames[..i] + frames[i..];
        ConcatAppends(frames[..i], frames[i..]);
        assert |Concat(frames[..i])| >= size;
        assert Take(Concat(frames), size) == Concat(frames)[..size] == Concat(frames[..i])[..size];
      } else {
        assert frames[..i] == frames;
      }
      content := Some(written);
    }
  }

  /** One attempt: the frames that were sent reach the pod recut to these sizes, or it fails and
      leaves anything at all. */
  datatype WriteAttempt = Delivered(sizes: seq<nat>) | WriteFails(error: Exc, leaves: Option<string>)

  function WriteOutcomes(attempts: seq<WriteAttempt>): seq<Result<(), Exc>> {
    seq(|attempts|, i requires 0 <= i < |attempts| => if attempts[i].Delivered? then Ok(()) else Err(attempts[i].error))
  }

  method WriteOnce(remote: RemoteFile, data: string, chunk: nat, attempt: WriteAttempt) returns (r: Result<(), Exc>)
    requires chunk > 0
    modifies remote
    ensures r == if attempt.Delivered? then Ok(()) else Err(attempt.error)
    ensures remote.content == if attempt.Delivered? then Some(data) else attempt.leaves
  {
    var sent := WriteStdinChunked(data, chunk);
    match attempt
    case Delivered(sizes) =>
      RecutKeepsTheBytes(Concat(sent), sizes);
      remote.Head(Recut(Concat(sent), sizes), |data|);
      r := Ok(());
    case WriteFails(error, leaves) =>
      remote.content := leaves;
      r := Err(error);
  }

  /** The retry loop of `write_file`. Whatever the failed attempts left behind, success leaves
      exactly the data. */
  method WriteFile(remote: RemoteFile, data: string, chunk: nat, attempts: seq<WriteAttempt>) returns (r: Result<(), Exc>)
    requires chunk > 0 && |attempts| >= MAX_ATTEMPTS
    modifies remote
    ensures r == Retried(WriteOutcomes(attempts), 1)
    ensures r.Ok? ==> remote.content == Some(data)
  {
    var attempt := 1;
    while true
      invariant 1 <= attempt <= MAX_ATTEMPTS
      invariant Retried(WriteOutcomes(attempts), 1) == Retried(WriteOutcomes(attempts), attempt)
      decreases MAX_ATTEMPTS - attempt
    {
      r := WriteOnce(remote, data, chunk, attempts[attempt - 1]);
      assert WriteOutcomes(attempts)[attempt - 1] == r;
      if r.Ok? || !Retryable(r.error) || attempt == MAX_ATTEMPTS {
        return;
      }
      attempt := attempt + 1;
    }
  }

  // ---- Reading ----

  /** The client's temporary file: writes land at the position and push it on. */
  class TempFile {
    var content: string
    var pos: nat

    constructor ()
      ensures content == "" && pos == 0
    {
      content, pos := "", 0;
    }

    method Seek(p: nat)
      modifies this`pos
      ensures pos == p
    {
      pos := p;
    }

    /** Cuts the file at the current position. */
    method Truncate()
      requires pos <= |content|
      modifies this`content
      ensures content == old(content)[..pos]
    {
      content := content[..pos];
    }

    method Write(data: string)
      requires pos <= |content|
      modifies this
      ensures pos == old(pos) + |data| <= |content|
      ensures old(pos) == old(|content|) ==> content == old(content) + data
    {
      var end := pos + |data|;
      content := content[..pos] + data + (if end < |content| then content[end..] else "");
      pos := end;
    }
  }

  /** One attempt: what `head -c limit+1` prints arrives recut to these sizes, or some frames arrive
      before an error. */
  datatype ReadAttempt = Clean(sizes: seq<nat>) | ReadFails(frames: seq<string>, error: Exc)

  /** The stdout frames of an attempt on a file with this content. */
  function FramesOf(a: ReadAttempt, file: string, limit: nat): seq<string> {
    match a
    case Clean(sizes) => Recut(Take(file, limit + 1), sizes)
    case ReadFails(frames, _) => frames
  }

  function ReadOutcome(a: ReadAttempt, file: string, limit: nat): Result<string, Exc> {
    var text := Concat(FramesOf(a, file, limit));
    if |text| > limit then Err(OutputLimitExceededError)
    else if a.ReadFails? then Err(a.error)
    else Ok(text)
  }

  function ReadOutcomes(attempts: seq<ReadAttempt>, file: string, limit: nat): seq<Result<string, Exc>> {
    seq(|attempts|, i requires 0 <= i < |attempts| => ReadOutcome(attempts[i], file, limit))
  }

  /** The stream loop of one read: frames go to `dst` as they come, the limit is checked after
      each, empty reads are skipped. */
  method HandleStreamOutput(dst: TempFile, a: ReadAttempt, file: string, limit: nat) returns (r: Result<(), Exc>)
    requires dst.pos == |dst.content|
    modifies dst
    ensures r == if |Concat(FramesOf(a, file, limit))| > limit then Err(OutputLimitExceededError)
                 else if a.ReadFails? then Err(a.error) else Ok(())
    ensures r.Ok? ==> dst.content == old(dst.content) + Concat(FramesOf(a, file, limit))
    ensures dst.pos == |dst.content|
  {
    var start, frames := dst.pos, FramesOf(a, file, limit);
    var i := 0;
    while i < |frames|
      invariant 0 <= i <= |frames|
      invariant dst.pos == |dst.content| && dst.content == old(dst.content) + Concat(frames[..i])
      invariant |Concat(frames[..i])| <= limit
    {
      FramesGrow(frames, i);
      var frame := frames[i];
      i := i + 1;
      if frame != "" {
        dst.Write(frame);
        if dst.pos - start > limit {
          return Err(OutputLimitExceededError);
        }
      }
    }
    assert frames[..|frames|] == frames;
    r := if a.ReadFails? then Err(a.error) else Ok(());
  }

  lemma FramesGrow(frames: seq<string>, i: nat)
    requires i < |frames|
    ensures Concat(frames[..i + 1]) == Concat(frames[..i]) + frames[i]
    ensures |Concat(frames)| >= |Concat(frames[..i + 1])|
  {
    assert frames[..i + 1] == frames[..i] + [frames[i]];
    ConcatAppends(frames[..i], [frames[i]]);
    assert Concat([frames[i]]) == frames[i] + [];
    assert frames == frames[..i + 1] + frames[i + 1..];
    ConcatAppends(frames[..i + 1], frames[i + 1..]);
  }

  /** One attempt: the temporary file is rewound and emptied before the frames come. */
  method ReadOnce(temp: TempFile, a: ReadAttempt, file: string, limit: nat) returns (r: Result<string, Exc>)
    modifies temp
    ensures r == ReadOutcome(a, file, limit) && temp.pos == |temp.content|
  {
    temp.Seek(0);
    temp.Truncate();
    var done := HandleStreamOutput(temp, a, file, limit);
    assert temp.content == "" + temp.content;
    r := if done.Ok? then Ok(temp.content) else Err(done.error);
  }

  /** The retry loop of `read_file`: each attempt starts over on an emptied temporary file. */
  method ReadFile(attempts: seq<ReadAttempt>, file: string, limit: nat) returns (r: Result<string, Exc>)
    requires |attempts| >= MAX_ATTEMPTS
    ensures r == Retried(ReadOutcomes(attempts, file, limit), 1)
  {
    var temp := new TempFile();
    var attempt := 1;
    ghost var outcomes := ReadOutcomes(attempts, file, limit);
    while true
      invariant 1 <= attempt <= MAX_ATTEMPTS
      invariant Retried(outcomes, 1) == Retried(outcomes, attempt)
      decreases MAX_ATTEMPTS - attempt
    {
      r := ReadOnce(temp, attempts[attempt - 1], file, limit);
      assert outcomes[attempt - 1] == r;
      if r.Ok? || !Retryable(r.error) || attempt == MAX_ATTEMPTS {
        return;
      }
      attempt := attempt + 1;
    }
  }

  /** A clean attempt gives the file when it is within the limit, and fails when it is not. */
  lemma CleanOutcome(sizes: seq<nat>, file: string, limit: nat)
    ensures ReadOutcome(Clean(sizes), file, limit) == if |file| <= limit then Ok(file) else Err(OutputLimitExceededError)
  {
    RecutKeepsTheBytes(Take(file, limit + 1), sizes);
  }

  /** What a read fails with: the limit error when the file is over the limit or the frames before an
      error are, else that error; of the first attempt that is not retried, or of the fifth. */
  lemma ReadFailsIff(attempts: seq<ReadAttempt>, file: string, limit: nat, e: Exc)
    requires |attempts| >= MAX_ATTEMPTS
    ensures Retried(ReadOutcomes(attempts, file, limit), 1) == Err(e) <==> exists k: nat :: ReadFailsAt(attempts, file, limit, e, k)
  {
    var outcomes := ReadOutcomes(attempts, file, limit);
    RetriedFailsIff(outcomes, 1, e);
    forall k: nat ensures FailsAt(outcomes, 1, e, k) <==> ReadFailsAt(attempts, file, limit, e, k) {
      if k < 5 && attempts[k].Clean? {
        CleanOutcome(attempts[k].sizes, file, limit);
      }
    }
  }

  predicate ReadFailsAt(attempts: seq<ReadAttempt>, file: string, limit: nat, e: Exc, k: nat)
    requires |attempts| >= MAX_ATTEMPTS
  {
    && k < 5 && AttemptFails(attempts[k], file, limit, e)
    && TransientBefore(ReadOutcomes(attempts, file, limit), 0, k) && (k == 4 || !Retryable(e))
  }

  predicate AttemptFails(a: ReadAttempt, file: string, limit: nat, e: Exc) {
    match a
    case Clean(_) => |file| > limit && e == OutputLimitExceededError
    case ReadFails(frames, error) => e == if |Concat(frames)| > limit then OutputLimitExceededError else error
  }

  /** A read gives a value exactly when that is the file, the file is within the limit, and a clean
      attempt among the five has only transient failures before it. */
  lemma ReadSucceedsIff(attempts: seq<ReadAttempt>, file: string, limit: nat, value: string)
    requires |attempts| >= MAX_ATTEMPTS
    ensures Retried(ReadOutcomes(attempts, file, limit), 1) == Ok(value) <==>
            value == file && |file| <= limit
            && exists k :: 0 <= k < MAX_ATTEMPTS && attempts[k].Clean? && TransientBefore(ReadOutcomes(attempts, file, limit), 0, k)
  {
    var outcomes := ReadOutcomes(attempts, file, limit);
    RetriedSucceedsIff(outcomes, 1, value);
    forall k | 0 <= k < MAX_ATTEMPTS ensures outcomes[k] == Ok(value) <==> attempts[k].Clean? && |file| <= limit && value == file {
      if attempts[k].Clean? {
        CleanOutcome(attempts[k].sizes, file, limit);
      }
    }
  }

  /** Writing, then reading back what the pod then holds. For any data, any chunk size, any recutting
      on either side and any failed attempts: a read that succeeds returns what was written; and the
      two succeed exactly when the data is within the limit and each side meets a clean attempt among
      its five with only transient failures before it. */
  method RoundTrip(remote: RemoteFile, data: string, chunk: nat, writes: seq<WriteAttempt>, fetches: seq<ReadAttempt>, limit: nat)
    returns (written: Result<(), Exc>, got: Result<string, Exc>)
    requires chunk > 0 && |writes| >= MAX_ATTEMPTS && |fetches| >= MAX_ATTEMPTS
    modifies remote
    ensures got.Ok? ==> written.Ok? && got.value == data
    ensures got.Ok? <==>
      && |data| <= limit
      && (exists j :: 0 <= j < MAX_ATTEMPTS && writes[j].Delivered? && TransientBefore(WriteOutcomes(writes), 0, j))
      && (exists k :: 0 <= k < MAX_ATTEMPTS && fetches[k].Clean? && TransientBefore(ReadOutcomes(fetches, data, limit), 0, k))
  {
    written := WriteFile(remote, data, chunk, writes);
    RetriedSucceedsIff(WriteOutcomes(writes), 1, ());
    assert forall j :: 0 <= j < MAX_ATTEMPTS ==> (WriteOutcomes(writes)[j] == Ok(()) <==> writes[j].Delivered?);
    if written.Err? {
      return written, Err(written.error);
    }
    got := ReadFile(fetches, remote.content.value, limit);
    ReadSucceedsIff(fetches, data, limit, data);
    if got.Ok? {
      ReadSucceedsIff(fetches, data, limit, got.value);
    }
  }
}
