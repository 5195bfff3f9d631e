/** The check that Helm values hold no nulls: one path per null, in the order a walk meets them. */
module NullFinder {
  import opened Text

  /** A values tree. A map is its entries in order; the keys of one map are distinct. */
  datatype Value = Null | Scalar(text: string) | List(items: seq<Value>) | Map(entries: seq<Entry>)
  datatype Entry = Entry(key: string, value: Value)

  // ---- Positions in a tree ----

  datatype Step = Key(key: string) | Index(i: nat)

  predicate DistinctKeys(entries: seq<Entry>) {
    forall i, j :: 0 <= i < j < |entries| ==> entries[i].key != entries[j].key
  }

  ghost predicate WellFormed(v: Value) {
    match v
    case List(items) => forall i :: 0 <= i < |items| ==> WellFormed(items[i])
    case Map(entries) => DistinctKeys(entries) && forall i :: 0 <= i < |entries| ==> WellFormed(entries[i].value)
    case _ => true
  }

  /** The position is reached from `v` through maps and lists and holds a null. */
  ghost predicate NullAt(v: Value, pos: seq<Step>) {
    if pos == [] then v.Null?
    else match pos[0]
      case Key(k) => v.Map? && exists i :: 0 <= i < |v.entries| && v.entries[i].key == k && NullAt(v.entries[i].value, pos[1..])
      case Index(i) => v.List? && i < |v.items| && NullAt(v.items[i], pos[1..])
  }

  /** The text of a path grown by one step; at the root a key stands alone. */
  function Extend(path: string, step: Step): string {
    match step
    case Key(k) => if path != "" then path + "." + k else k
    case Index(i) => path + "[" + Decimal(i) + "]"
  }

  function Render(path: string, pos: seq<Step>): string
    decreases |pos|
  {
    if pos == [] then path else Render(Extend(path, pos[0]), pos[1..])
  }

  // ---- The nulls of a tree, in traversal order ----

  function Prefixed(step: Step, poss: seq<seq<Step>>): seq<seq<Step>> {
    seq(|poss|, i requires 0 <= i < |poss| => [step] + poss[i])
  }

  function Nulls(v: Value): seq<seq<Step>>
    decreases v, 1
  {
    match v
    case Null => [[]]
    case Scalar(_) => []
    case List(items) => ListNulls(v, |items|)
    case Map(entries) => MapNulls(v, |entries|)
  }

  /** The nulls under the first `n` items. */
  function ListNulls(v: Value, n: nat): seq<seq<Step>>
    requires v.List? && n <= |v.items|
    decreases v, 0, n
  {
    if n == 0 then [] else ListNulls(v, n - 1) + Prefixed(Index(n - 1), Nulls(v.items[n - 1]))
  }

  function MapNulls(v: Value, n: nat): seq<seq<Step>>
    requires v.Map? && n <= |v.entries|
    decreases v, 0, n
  {
    if n == 0 then [] else MapNulls(v, n - 1) + Prefixed(Key(v.entries[n - 1].key), Nulls(v.entries[n - 1].value))
  }

  function Texts(path: string, poss: seq<seq<Step>>): seq<string> {
    seq(|poss|, i requires 0 <= i < |poss| => Render(path, poss[i]))
  }

  lemma TextsOfPrefixed(path: string, step: Step, poss: seq<seq<Step>>)
    ensures Texts(path, Prefixed(step, poss)) == Texts(Extend(path, step), poss)
  {
    forall i | 0 <= i < |poss| ensures Render(path, Prefixed(step, poss)[i]) == Render(Extend(path, step), poss[i]) {
      assert Prefixed(step, poss)[i][1..] == poss[i];
    }
  }

  lemma TextsAppend(path: string, a: seq<seq<Step>>, b: seq<seq<Step>>)
    ensures Texts(path, a + b) == Texts(path, a) + Texts(path, b)
  {
  }

  /** The recursive walk, its list of paths growing as it goes. */
  method FindNullPaths(obj: Value, path: string) returns (nullPaths: seq<string>)
    requires !obj.Null?
    ensures nullPaths == Texts(path, Nulls(obj))
    decreases obj
  {
    nullPaths := [];
    match obj {
      case Map(entries) =>
        var i := 0;
        while i < |entries|
          invariant 0 <= i <= |entries| && nullPaths == Texts(path, MapNulls(obj, i))
        {
          var key, value := entries[i].key, entries[i].value;
          var currentPath := if path != "" then path + "." + key else key;
          TextsOfPrefixed(path, Key(key), Nulls(value));
          TextsAppend(path, MapNulls(obj, i), Prefixed(Key(key), Nulls(value)));
          if value.Null? {
            assert Texts(currentPath, Nulls(value)) == [currentPath];
            nullPaths := nullPaths + [currentPath];
          } else {
            var more := FindNullPaths(value, currentPath);
            nullPaths := nullPaths + more;
          }
          i := i + 1;
        }
      case List(items) =>
        var i := 0;
        while i < |items|
          invariant 0 <= i <= |items| && nullPaths == Texts(path, ListNulls(obj, i))
        {
          var item := items[i];
          var currentPath := path + "[" + Decimal(i) + "]";
          TextsOfPrefixed(path, Index(i), Nulls(item));
          TextsAppend(path, ListNulls(obj, i), Prefixed(Index(i), Nulls(item)));
          if item.Null? {
            assert Texts(currentPath, Nulls(item)) == [currentPath];
            nullPaths := nullPaths + [currentPath];
          } else {
            var more := FindNullPaths(item, currentPath);
            nullPaths := nullPaths + more;
          }
          i := i + 1;
        }
      case Scalar(_) =>
    }
  }

  // ---- What the list of nulls is ----

  lemma PrefixedMembers(step: Step, poss: seq<seq<Step>>, pos: seq<Step>)
    ensures pos in Prefixed(step, poss) <==> pos != [] && pos[0] == step && pos[1..] in poss
  {
    var ps := Prefixed(step, poss);
    if pos in ps {
      var i :| 0 <= i < |ps| && ps[i] == pos;
      assert pos[1..] == poss[i];
    }
    if pos != [] && pos[0] == step && pos[1..] in poss {
      var i :| 0 <= i < |poss| && poss[i] == pos[1..];
      assert ps[i] == pos;
    }
  }

  lemma {:induction false} ListNullsAre(v: Value, n: nat, pos: seq<Step>)
    requires v.List? && n <= |v.items|
    ensures pos in ListNulls(v, n) <==> pos != [] && pos[0].Index? && pos[0].i < n && NullAt(v.items[pos[0].i], pos[1..])
    decreases v, 0, n
  {
    if n > 0 {
      ListNullsAre(v, n - 1, pos);
      PrefixedMembers(Index(n - 1), Nulls(v.items[n - 1]), pos);
      if pos != [] {
        NullsAre(v.items[n - 1], pos[1..]);
      }
    }
  }

  lemma {:induction false} MapNullsAre(v: Value, n: nat, pos: seq<Step>)
    requires v.Map? && n <= |v.entries|
    ensures pos in MapNulls(v, n) <==>
            pos != [] && pos[0].Key? && exists i :: 0 <= i < n && v.entries[i].key == pos[0].key && NullAt(v.entries[i].value, pos[1..])
    decreases v, 0, n
  {
    if n > 0 {
      MapNullsAre(v, n - 1, pos);
      PrefixedMembers(Key(v.entries[n - 1].key), Nulls(v.entries[n - 1].value), pos);
      if pos != [] {
        NullsAre(v.entries[n - 1].value, pos[1..]);
      }
    }
  }

  /** Sound and complete: a position is listed exactly when it holds a null. */
  lemma {:induction false} NullsAre(v: Value, pos: seq<Step>)
    ensures pos in Nulls(v) <==> NullAt(v, pos)
    decreases v, 1
  {
    match v
    case List(items) => ListNullsAre(v, |items|, pos);
    case Map(entries) => MapNullsAre(v, |entries|, pos);
    case _ =>
  }

  // ---- The order of the list ----

  function EntryIndex(entries: seq<Entry>, key: string): (i: nat)
    requires exists i :: 0 <= i < |entries| && entries[i].key == key
    ensures i < |entries| && entries[i].key == key
  {
    if entries[0].key == key then 0 else 1 + EntryIndex(entries[1..], key)
  }

  /** Where the walk goes first: the index of the entry or item that the positions part at. */
  ghost predicate Before(v: Value, p: seq<Step>, q: seq<Step>)
    decreases v
  {
    && p != [] && q != []
    && match v {
      case List(items) =>
        && p[0].Index? && q[0].Index? && p[0].i < |items| && q[0].i < |items|
        && (p[0].i < q[0].i || (p[0].i == q[0].i && Before(items[p[0].i], p[1..], q[1..])))
      case Map(entries) =>
        && p[0].Key? && q[0].Key?
        && exists i, j :: 0 <= i <= j < |entries| && entries[i].key == p[0].key && entries[j].key == q[0].key
             && (i < j || Before(entries[i].value, p[1..], q[1..]))
      case _ => false
    }
  }

  ghost predicate Ascending(v: Value, poss: seq<seq<Step>>) {
    forall a, b :: 0 <= a < b < |poss| ==> Before(v, poss[a], poss[b])
  }

  lemma {:induction false} NotBeforeItself(v: Value, p: seq<Step>)
    requires WellFormed(v)
    ensures !Before(v, p, p)
    decreases v
  {
    if p != [] {
      match v
      case List(items) =>
        if p[0].Index? && p[0].i < |items| {
          NotBeforeItself(items[p[0].i], p[1..]);
        }
      case Map(entries) =>
        forall i | 0 <= i < |entries| ensures !Before(entries[i].value, p[1..], p[1..]) {
          NotBeforeItself(entries[i].value, p[1..]);
        }
      case _ =>
    }
  }

  lemma AppendAscending(v: Value, xs: seq<seq<Step>>, ys: seq<seq<Step>>)
    requires Ascending(v, xs) && Ascending(v, ys)
    requires forall x, y :: x in xs && y in ys ==> Before(v, x, y)
    ensures Ascending(v, xs + ys)
  {
    forall a, b | 0 <= a < b < |xs + ys| ensures Before(v, (xs + ys)[a], (xs + ys)[b]) {
      if a < |xs| <= b {
        assert xs[a] in xs && ys[b - |xs|] in ys;
      }
    }
  }

  /** The listed positions ascend in the order of entries and items, level by level. */
  lemma {:induction false} NullsAscend(v: Value)
    ensures Ascending(v, Nulls(v))
    decreases v, 1
  {
    match v
    case List(items) => ListNullsAscend(v, |items|);
    case Map(entries) => MapNullsAscend(v, |entries|);
    case _ =>
  }

  lemma {:induction false} ListNullsAscend(v: Value, n: nat)
    requires v.List? && n <= |v.items|
    ensures Ascending(v, ListNulls(v, n))
    decreases v, 0, n
  {
    if n > 0 {
      ListNullsAscend(v, n - 1);
      var item := v.items[n - 1];
      NullsAscend(item);
      var last := Prefixed(Index(n - 1), Nulls(item));
      forall a, b | 0 <= a < b < |last| ensures Before(v, last[a], last[b]) {
        assert last[a][1..] == Nulls(item)[a] && last[b][1..] == Nulls(item)[b];
      }
      forall x, y | x in ListNulls(v, n - 1) && y in last ensures Before(v, x, y) {
        ListNullsAre(v, n - 1, x);
        PrefixedMembers(Index(n - 1), Nulls(item), y);
      }
      AppendAscending(v, ListNulls(v, n - 1), last);
    }
  }

  lemma {:induction false} MapNullsAscend(v: Value, n: nat)
    requires v.Map? && n <= |v.entries|
    ensures Ascending(v, MapNulls(v, n))
    decreases v, 0, n
  {
    if n > 0 {
      MapNullsAscend(v, n - 1);
      var e := v.entries[n - 1];
      NullsAscend(e.value);
      var last := Prefixed(Key(e.key), Nulls(e.value));
      forall a, b | 0 <= a < b < |last| ensures Before(v, last[a], last[b]) {
        assert last[a][1..] == Nulls(e.value)[a] && last[b][1..] == Nulls(e.value)[b];
      }
      forall x, y | x in MapNulls(v, n - 1) && y in last ensures Before(v, x, y) {
        MapNullsAre(v, n - 1, x);
        PrefixedMembers(Key(e.key), Nulls(e.value), y);
      }
      AppendAscending(v, MapNulls(v, n - 1), last);
    }
  }

  predicate NoDuplicates<T(==)>(xs: seq<T>) {
    forall i, j :: 0 <= i < j < |xs| ==> xs[i] != xs[j]
  }

  /** So no null is listed twice. */
  lemma NullsDistinct(v: Value)
    requires WellFormed(v)
    ensures NoDuplicates(Nulls(v))
  {
    NullsAscend(v);
    forall p ensures !Before(v, p, p) {
      NotBeforeItself(v, p);
    }
  }

  // ---- When printed paths tell nulls apart ----

  function StepText(step: Step): string {
    match step
    case Key(k) => "." + k
    case Index(i) => "[" + Decimal(i) + "]"
  }

  /** The text that the steps add to a path that is not empty. */
  function Tail(pos: seq<Step>): string
    decreases |pos|
  {
    if pos == [] then "" else StepText(pos[0]) + Tail(pos[1..])
  }

  lemma ExtendText(path: string, step: Step)
    requires path != "" || step.Index?
    ensures Extend(path, step) == path + StepText(step) && Extend(path, step) != ""
  {
  }

  lemma {:induction false} RenderTail(path: string, pos: seq<Step>)
    requires path != ""
    ensures Render(path, pos) == path + Tail(pos)
    decreases |pos|
  {
    if pos == [] {
      assert path + "" == path;
    } else {
      ExtendText(path, pos[0]);
      RenderTail(Extend(path, pos[0]), pos[1..]);
      Associates(path, StepText(pos[0]), Tail(pos[1..]));
    }
  }

  /** The text could follow a key as steps: bracketed indices, then nothing or a dot and anything. */
  ghost predicate Steps(x: string)
    decreases |x|
  {
    || x == "" || x[0] == '.'
    || exists i: nat, rest :: |rest| < |x| && x == "[" + Decimal(i) + "]" + rest && Steps(rest)
  }

  /** Some nulls below two different keys of one map can print the same path: one key is the other
      continued by steps; or, where the path is still empty, one of them is empty. */
  ghost predicate Confusable(k: string, k': string, bare: bool) {
    || (k <= k' && Steps(k'[|k|..])) || (k' <= k && Steps(k[|k'|..]))
    || (bare && (k == "" || k' == ""))
  }

  ghost predicate KeysClear(entries: seq<Entry>, bare: bool) {
    forall i, j :: 0 <= i < j < |entries| ==> !Confusable(entries[i].key, entries[j].key, bare)
  }

  /** No map in the tree has two confusable keys. The path stays empty only below empty keys. */
  ghost predicate Clear(v: Value, bare: bool) {
    match v
    case List(items) => forall i :: 0 <= i < |items| ==> Clear(items[i], false)
    case Map(entries) =>
      KeysClear(entries, bare) && forall i :: 0 <= i < |entries| ==> Clear(entries[i].value, bare && entries[i].key == "")
    case _ => true
  }

  lemma Cancels(a: string, b: string, c: string)
    requires a + b == a + c
    ensures b == c
  {
    assert b == (a + b)[|a|..] && c == (a + c)[|a|..];
  }

  /** A decimal up to its closing bracket gives away the number. */
  lemma IndexApart(i: nat, s: string, j: nat, t: string)
    requires Decimal(i) + "]" + s == Decimal(j) + "]" + t
    ensures i == j
  {
    var d, e := Decimal(i), Decimal(j);
    var l, r := d + "]" + s, e + "]" + t;
    assert l[|d|] == ']' && r[|e|] == ']';
    assert forall n :: 0 <= n < |d| ==> l[n] == d[n];
    assert forall n :: 0 <= n < |e| ==> r[n] == e[n];
    DecimalDigits(i);
    DecimalDigits(j);
    assert |d| == |e|;
    assert d == l[..|d|] && e == r[..|e|];
    DecimalInjective(i, j);
  }

  lemma DecimalDigits(i: nat)
    ensures AllDigits(Decimal(i))
  {
  }

  /** If the text of some steps is cut where another step starts, the first part is steps too. */
  lemma {:induction false} CutOfTail(pos: seq<Step>, x: string, rest: seq<Step>)
    requires Tail(pos) == x + Tail(rest)
    ensures Steps(x)
    decreases |pos|
  {
    if pos != [] && x != "" {
      assert x[0] == Tail(pos)[0];
      match pos[0]
      case Key(k) => assert x[0] == '.';
      case Index(i) =>
        var head := "[" + Decimal(i) + "]";
        DecimalDigits(i);
        if |x| < |head| {
          CutInside(head, Tail(pos[1..]), x, Tail(rest));
          HeadChars(i, |x|);
          TailStarts(rest);
          assert false;
        } else {
          SplitWithin(head, Tail(pos[1..]), x, Tail(rest));
          CutOfTail(pos[1..], x[|head|..], rest);
          assert x == head + x[|head|..];
        }
    }
  }

  lemma CutInside(head: string, more: string, x: string, t: string)
    requires head + more == x + t && |x| < |head|
    ensures t != "" && t[0] == head[|x|]
  {
    assert (x + t)[|x|] == (head + more)[|x|];
  }

  lemma HeadChars(i: nat, n: nat)
    requires 0 < n < |"[" + Decimal(i) + "]"|
    ensures IsDigit(("[" + Decimal(i) + "]")[n]) || ("[" + Decimal(i) + "]")[n] == ']'
  {
    DecimalDigits(i);
    var d := Decimal(i);
    var head := "[" + d + "]";
    assert n <= |d| ==> head[n] == d[n - 1];
  }

  lemma TailStarts(pos: seq<Step>)
    ensures Tail(pos) != "" ==> Tail(pos)[0] == '.' || Tail(pos)[0] == '['
  {
  }

  /** Different keys with the same text after them are confusable. */
  lemma SameTextConfusable(k: string, rest: seq<Step>, k': string, rest': seq<Step>)
    requires k + Tail(rest) == k' + Tail(rest')
    ensures Confusable(k, k', false)
  {
    if |k| <= |k'| {
      SplitWithin(k, Tail(rest), k', Tail(rest'));
      CutOfTail(rest, k'[|k|..], rest');
    } else {
      SplitWithin(k', Tail(rest'), k, Tail(rest));
      CutOfTail(rest', k[|k'|..], rest);
    }
  }

  lemma {:induction false} ClearTellsApart(v: Value, path: string, p: seq<Step>, q: seq<Step>)
    requires WellFormed(v) && Clear(v, path == "") && NullAt(v, p) && NullAt(v, q) && p != q
    ensures Render(path, p) != Render(path, q)
    decreases v
  {
    if !v.Null? {
      assert p == [p[0]] + p[1..] && q == [q[0]] + q[1..];
      if v.List? {
        if p[0] == q[0] {
          ClearTellsApart(v.items[p[0].i], Extend(path, p[0]), p[1..], q[1..]);
        } else {
          DifferentItems(path, p, q);
        }
      } else {
        var i :| 0 <= i < |v.entries| && v.entries[i].key == p[0].key && NullAt(v.entries[i].value, p[1..]);
        var j :| 0 <= j < |v.entries| && v.entries[j].key == q[0].key && NullAt(v.entries[j].value, q[1..]);
        if i == j {
          ClearTellsApart(v.entries[i].value, Extend(path, p[0]), p[1..], q[1..]);
        } else {
          assert !Confusable(v.entries[if i < j then i else j].key, v.entries[if i < j then j else i].key, path == "");
          DifferentKeys(path, p, q);
        }
      }
    }
  }

  lemma DifferentItems(path: string, p: seq<Step>, q: seq<Step>)
    requires p != [] && q != [] && p[0].Index? && q[0].Index? && p[0] != q[0]
    ensures Render(path, p) != Render(path, q)
  {
    IndexRender(path, p);
    IndexRender(path, q);
    if Render(path, p) == Render(path, q) {
      Cancels(path + "[", Decimal(p[0].i) + "]" + Tail(p[1..]), Decimal(q[0].i) + "]" + Tail(q[1..]));
      IndexApart(p[0].i, Tail(p[1..]), q[0].i, Tail(q[1..]));
    }
  }

  lemma IndexRender(path: string, p: seq<Step>)
    requires p != [] && p[0].Index?
    ensures Render(path, p) == (path + "[") + (Decimal(p[0].i) + "]" + Tail(p[1..]))
  {
    ExtendText(path, p[0]);
    RenderTail(Extend(path, p[0]), p[1..]);
    Regroup(path, "[", Decimal(p[0].i), "]", Tail(p[1..]));
  }

  lemma Regroup(a: string, b: string, c: string, d: string, e: string)
    ensures a + (b + c + d) + e == (a + b) + (c + d + e)
  {
  }

  lemma DifferentKeys(path: string, p: seq<Step>, q: seq<Step>)
    requires p != [] && q != [] && p[0].Key? && q[0].Key? && !Confusable(p[0].key, q[0].key, path == "")
    ensures Render(path, p) != Render(path, q)
  {
    KeyRender(path, p);
    KeyRender(path, q);
    if Render(path, p) == Render(path, q) {
      Cancels(if path == "" then "" else path + ".", p[0].key + Tail(p[1..]), q[0].key + Tail(q[1..]));
      SameTextConfusable(p[0].key, p[1..], q[0].key, q[1..]);
    }
  }

  lemma KeyRender(path: string, p: seq<Step>)
    requires p != [] && p[0].Key? && (path != "" || p[0].key != "")
    ensures Render(path, p) == (if path == "" then "" else path + ".") + (p[0].key + Tail(p[1..]))
  {
    RenderTail(Extend(path, p[0]), p[1..]);
    if path != "" {
      Associates(path + ".", p[0].key, Tail(p[1..]));
    }
  }

  /** A tree whose only null prints as the given steps, and tells its nulls apart. */
  lemma {:induction false} TreeOfSteps(x: string) returns (v: Value, pos: seq<Step>)
    requires Steps(x)
    ensures NullAt(v, pos) && Tail(pos) == x && WellFormed(v) && Clear(v, false)
    decreases |x|
  {
    if x == "" {
      v, pos := Null, [];
    } else if x[0] == '.' {
      v, pos := Map([Entry(x[1..], Null)]), [Key(x[1..])];
      assert pos[1..] == [] && v.entries[0].key == pos[0].key;
      assert x == "." + x[1..] + "";
    } else {
      var i: nat, rest :| |rest| < |x| && x == "[" + Decimal(i) + "]" + rest && Steps(rest);
      var w, p := TreeOfSteps(rest);
      v, pos := LastItem(i, w), [Index(i)] + p;
      LastItemKeeps(i, w, p);
      assert x == StepText(Index(i)) + rest;
    }
  }

  function LastItem(i: nat, w: Value): Value {
    List(seq(i + 1, n => if n == i then w else Scalar("")))
  }

  lemma LastItemKeeps(i: nat, w: Value, p: seq<Step>)
    requires NullAt(w, p) && WellFormed(w) && Clear(w, false)
    ensures var pos := [Index(i)] + p;
      NullAt(LastItem(i, w), pos) && Tail(pos) == StepText(Index(i)) + Tail(p) && WellFormed(LastItem(i, w)) && Clear(LastItem(i, w), false)
  {
    var pos := [Index(i)] + p;
    assert pos[1..] == p && LastItem(i, w).items[i] == w;
  }

  /** The maps with these keys and clear values print all their nulls apart, whatever the values hold,
      exactly when no two of the keys are confusable. */
  lemma PathsDistinctIff(keys: seq<string>, path: string)
    requires NoDuplicates(keys)
    ensures (forall v :: HasKeys(v, keys) && WellFormed(v) && ChildrenClear(v, path == "") ==> NoDuplicates(Texts(path, Nulls(v))))
       <==> (forall i, j :: 0 <= i < j < |keys| ==> !Confusable(keys[i], keys[j], path == ""))
  {
    if i, j :| 0 <= i < j < |keys| && Confusable(keys[i], keys[j], path == "") {
      var v := ConfusedMap(keys, path, i, j);
    } else {
      forall v | HasKeys(v, keys) && WellFormed(v) && ChildrenClear(v, path == "") ensures NoDuplicates(Texts(path, Nulls(v))) {
        ClearTextsDistinct(v, path);
      }
    }
  }

  ghost predicate HasKeys(v: Value, keys: seq<string>) {
    v.Map? && |v.entries| == |keys| && forall i :: 0 <= i < |keys| ==> v.entries[i].key == keys[i]
  }

  ghost predicate ChildrenClear(v: Value, bare: bool)
    requires v.Map?
  {
    forall i :: 0 <= i < |v.entries| ==> Clear(v.entries[i].value, bare && v.entries[i].key == "")
  }

  /** In a tree without confusable keys, no two nulls are reported under the same path. */
  lemma ClearTextsDistinct(v: Value, path: string)
    requires WellFormed(v) && Clear(v, path == "")
    ensures NoDuplicates(Texts(path, Nulls(v)))
  {
    var poss := Nulls(v);
    NullsDistinct(v);
    forall a, b | 0 <= a < b < |poss| ensures Texts(path, poss)[a] != Texts(path, poss)[b] {
      assert poss[a] in poss && poss[b] in poss;
      NullsAre(v, poss[a]);
      NullsAre(v, poss[b]);
      ClearTellsApart(v, path, poss[a], poss[b]);
    }
  }

  lemma ConfusedMap(keys: seq<string>, path: string, i: nat, j: nat) returns (v: Value)
    requires NoDuplicates(keys) && i < j < |keys| && Confusable(keys[i], keys[j], path == "")
    ensures HasKeys(v, keys) && WellFormed(v) && ChildrenClear(v, path == "") && !NoDuplicates(Texts(path, Nulls(v)))
  {
    if path == "" && (keys[i] == "" || keys[j] == "") {
      v := if keys[i] == "" then EmptyKeyMap(keys, i, j) else EmptyKeyMap(keys, j, i);
      EmptyKeyConfuses(keys, if keys[i] == "" then i else j, if keys[i] == "" then j else i);
    } else if keys[i] <= keys[j] && Steps(keys[j][|keys[i]|..]) {
      v := LongerKeyConfuses(keys, path, i, j);
    } else {
      v := LongerKeyConfuses(keys, path, j, i);
    }
  }

  /** A null at key `b`, and one below the empty key `a` at the same key. */
  function EmptyKeyMap(keys: seq<string>, a: nat, b: nat): Value
    requires a < |keys| && b < |keys|
  {
    TwoNulls(keys, a, Map([Entry(keys[b], Null)]), b)
  }

  lemma EmptyKeyConfuses(keys: seq<string>, a: nat, b: nat)
    requires NoDuplicates(keys) && a < |keys| && b < |keys| && a != b && keys[a] == ""
    ensures var v := EmptyKeyMap(keys, a, b);
      HasKeys(v, keys) && WellFormed(v) && ChildrenClear(v, true) && !NoDuplicates(Texts("", Nulls(v)))
  {
    var v, w := EmptyKeyMap(keys, a, b), Map([Entry(keys[b], Null)]);
    var p, q := [Key(""), Key(keys[b])], [Key(keys[b])];
    assert p[1..] == q && q[1..] == [];
    assert w.entries[0].key == q[0].key && NullAt(w, q);
    assert keys[b] != "" && Extend("", Key("")) == "";
    assert Render("", p) == Render("", q);
    TwoNullsShape(keys, a, w, b, true);
    BothReported(v, "", a, b, p, q);
  }

  lemma SameRender(path: string, p: seq<Step>, q: seq<Step>, x: string)
    requires p != [] && |q| == 1 && p[0].Key? && q[0].Key? && (path != "" || (p[0].key != "" && q[0].key != ""))
    requires Tail(p[1..]) == x && q[0].key == p[0].key + x
    ensures Render(path, p) == Render(path, q)
  {
    KeyRender(path, p);
    KeyRender(path, q);
    assert Tail(q[1..]) == "" && q[0].key + "" == q[0].key;
  }

  lemma LongerKeyConfuses(keys: seq<string>, path: string, a: nat, b: nat) returns (v: Value)
    requires NoDuplicates(keys) && a < |keys| && b < |keys| && a != b && (path != "" || (keys[a] != "" && keys[b] != ""))
    requires keys[a] <= keys[b] && Steps(keys[b][|keys[a]|..])
    ensures HasKeys(v, keys) && WellFormed(v) && ChildrenClear(v, path == "") && !NoDuplicates(Texts(path, Nulls(v)))
  {
    var x := keys[b][|keys[a]|..];
    var w, pos := TreeOfSteps(x);
    v := TwoNulls(keys, a, w, b);
    var p, q := [Key(keys[a])] + pos, [Key(keys[b])];
    assert p[1..] == pos && q[1..] == [];
    assert keys[b] == keys[a] + x;
    SameRender(path, p, q, x);
    TwoNullsShape(keys, a, w, b, path == "");
    BothReported(v, path, a, b, p, q);
  }

  /** The map with the value `w` at key `a`, a null at key `b`, and no other null. */
  function TwoNulls(keys: seq<string>, a: nat, w: Value, b: nat): Value {
    Map(seq(|keys|, n requires 0 <= n < |keys| => Entry(keys[n], if n == a then w else if n == b then Null else Scalar(""))))
  }

  lemma TwoNullsShape(keys: seq<string>, a: nat, w: Value, b: nat, bare: bool)
    requires NoDuplicates(keys) && a < |keys| && b < |keys| && WellFormed(w) && Clear(w, bare && keys[a] == "")
    ensures var v := TwoNulls(keys, a, w, b); HasKeys(v, keys) && WellFormed(v) && ChildrenClear(v, bare)
  {
  }

  lemma BothReported(v: Value, path: string, a: nat, b: nat, p: seq<Step>, q: seq<Step>)
    requires v.Map? && a < |v.entries| && b < |v.entries| && p != [] && q != [] && p != q && p[0].Key? && q[0].Key?
    requires v.entries[a].key == p[0].key && v.entries[b].key == q[0].key
    requires NullAt(v.entries[a].value, p[1..]) && NullAt(v.entries[b].value, q[1..]) && Render(path, p) == Render(path, q)
    ensures !NoDuplicates(Texts(path, Nulls(v)))
  {
    NullBelow(v, a, p);
    NullBelow(v, b, q);
    SameTextTwice(path, Nulls(v), p, q);
  }

  lemma NullBelow(v: Value, a: nat, p: seq<Step>)
    requires v.Map? && a < |v.entries| && p != [] && p[0].Key? && v.entries[a].key == p[0].key && NullAt(v.entries[a].value, p[1..])
    ensures p in Nulls(v)
  {
    assert NullAt(v, p);
    NullsAre(v, p);
  }

  lemma SameTextTwice(path: string, poss: seq<seq<Step>>, p: seq<Step>, q: seq<Step>)
    requires p in poss && q in poss && p != q && Render(path, p) == Render(path, q)
    ensures !NoDuplicates(Texts(path, poss))
  {
    var m :| 0 <= m < |poss| && poss[m] == p;
    var n :| 0 <= n < |poss| && poss[n] == q;
    var texts := Texts(path, poss);
    assert texts[m] == Render(path, p) && texts[n] == Render(path, q) && m != n;
    assert texts[if m < n then m else n] == texts[if m < n then n else m];
  }

  /** Keys that are not empty and have neither `.` nor `[` are never confusable. */
  lemma PlainKeysClear(k: string, k': string, bare: bool)
    requires k != k' && k != "" && k' != "" && '.' !in k + k' && '[' !in k + k'
    ensures !Confusable(k, k', bare)
  {
    forall a, b | a <= b && a != b && (b == k || b == k') ensures !Steps(b[|a|..]) {
      assert b[|a|..] != "" && b[|a|..][0] == b[|a|];
      assert b[|a|] in b && b[|a|] in k + k';
    }
  }

  /** `{a: {b: null}, "a.b": null}` reports `a.b` twice. */
  lemma TwoNullsOnePath()
    ensures var v := Map([Entry("a", Map([Entry("b", Null)])), Entry("a.b", Null)]);
            WellFormed(v) && !NoDuplicates(Texts("", Nulls(v)))
  {
    var inner := Map([Entry("b", Null)]);
    var v := Map([Entry("a", inner), Entry("a.b", Null)]);
    TwoReported("a", "b", "a.b", inner, v);
  }

  lemma TwoReported(k: string, l: string, kl: string, inner: Value, v: Value)
    requires k != "" && kl != k && kl == k + "." + l && inner == Map([Entry(l, Null)]) && v == Map([Entry(k, inner), Entry(kl, Null)])
    ensures WellFormed(v) && !NoDuplicates(Texts("", Nulls(v)))
  {
    var p, q := [Key(k), Key(l)], [Key(kl)];
    assert p[1..] == [Key(l)] && p[1..][1..] == [] && q[1..] == [];
    assert inner.entries[0].key == p[1..][0].key && NullAt(inner, p[1..]);
    assert Tail([Key(l)]) == "." + l + "" == "." + l;
    Associates(k, ".", l);
    SameRender("", p, q, "." + l);
    BothReported(v, "", 0, 1, p, q);
  }

  /** Validation passes exactly when no null exists at any depth, and otherwise reports as many
      paths as there are nulls: each position holding a null once. */
  method ValidateNoNullValues(values: Value) returns (reported: seq<string>)
    requires values.Map?
    ensures reported == [] <==> forall pos :: !NullAt(values, pos)
    ensures WellFormed(values) ==>
      exists poss: seq<seq<Step>> :: NoDuplicates(poss) && Ascending(values, poss)
        && (forall pos :: pos in poss <==> NullAt(values, pos)) && reported == Texts("", poss)
    ensures WellFormed(values) && Clear(values, true) ==> NoDuplicates(reported)
  {
    reported := FindNullPaths(values, "");
    ghost var poss := Nulls(values);
    forall pos ensures pos in poss <==> NullAt(values, pos) {
      NullsAre(values, pos);
    }
    if poss != [] {
      assert poss[0] in poss;
      assert NullAt(values, poss[0]) && |reported| == |poss|;
    }
    if WellFormed(values) {
      NullsDistinct(values);
      NullsAscend(values);
      if Clear(values, true) {
        ClearTextsDistinct(values, "");
      }
    }
  }
}
