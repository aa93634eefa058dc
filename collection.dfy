/** The list operations and the activation protocol of the fixed-size
    collections (helixapi/utils/collection_base.py), stated on values:
    `swap`, `move` and `clone` on the item list, and the re-entrant
    active-index setter with the notifications it emits.  The classes of
    module `Hierarchy` are proved against these functions. */
module Collections {
  import opened Prelude
  import opened PyStr

  /** The capacities of a Helix unit: 8 setlists of 128 presets, each with 8
      snapshots. */
  const MaxSetlists := 8
  const MaxPresets := 128
  const MaxSnapshots := 8

  /** `s[i], s[j] = s[j], s[i]`: both subscripts are read (with negative
      indexing) before either is written, so an out-of-range subscript
      fails with the list unchanged. */
  function PySwap<T>(s: seq<T>, i: int, j: int): (r: Result<seq<T>>)
    ensures r.Ok? <==> PyIndex(i, |s|).Some? && PyIndex(j, |s|).Some?
    ensures r.Err? ==> r.error == IndexOutOfRange
    ensures r.Ok? ==>
              var pi, pj := PyIndex(i, |s|).value, PyIndex(j, |s|).value;
              |r.value| == |s| && r.value[pi] == s[pj] && r.value[pj] == s[pi]
              && forall q :: 0 <= q < |s| && q != pi && q != pj ==> r.value[q] == s[q]
  {
    match (PyIndex(i, |s|), PyIndex(j, |s|))
    case (Some(pi), Some(pj)) => Ok(s[pi := s[pj]][pj := s[pi]])
    case _ => Err(IndexOutOfRange)
  }

  /** A swap only reorders the items. */
  lemma SwapPermutes<T>(s: seq<T>, i: int, j: int)
    requires PySwap(s, i, j).Ok?
    ensures multiset(PySwap(s, i, j).value) == multiset(s)
  {
    var pi, pj := PyIndex(i, |s|).value, PyIndex(j, |s|).value;
    var s1 := s[pi := s[pj]];
    assert PySwap(s, i, j).value == s1[pj := s[pi]];
    assert multiset(s1) == multiset(s) - multiset{s[pi]} + multiset{s[pj]};
    assert multiset(s1[pj := s[pi]]) == multiset(s1) - multiset{s1[pj]} + multiset{s[pi]};
    assert s1[pj] == s[pj];
  }

  /** Swapping the same two positions again restores the list. */
  lemma SwapTwice<T>(s: seq<T>, i: int, j: int)
    requires PySwap(s, i, j).Ok?
    ensures PySwap(PySwap(s, i, j).value, i, j) == Ok(s)
  {
    var r := PySwap(PySwap(s, i, j).value, i, j).value;
    assert r == s;
  }

  /** `s` without its element at position `p`. */
  function RemoveAt<T>(s: seq<T>, p: nat): seq<T>
    requires p < |s|
  {
    s[..p] + s[p + 1..]
  }

  /** Where `list.insert(t, x)` puts `x` in a list of length `m`: negative
      positions count from the end, and positions are clamped to
      `0..m`. */
  function InsertPos(t: int, m: nat): (r: nat)
    ensures r <= m
    ensures 0 <= t <= m ==> r == t
  {
    if t < 0 then (if t + m < 0 then 0 else t + m) else if t > m then m else t
  }

  /** `x = s.pop(f); s.insert(t, x)`.  `pop` fails on an out-of-range
      position (and on an empty list), leaving the list unchanged. */
  function PyMove<T>(s: seq<T>, f: int, t: int): (r: Result<seq<T>>)
    ensures r.Ok? <==> PyIndex(f, |s|).Some?
    ensures r.Err? ==> r.error == IndexOutOfRange
    ensures r.Ok? ==> |r.value| == |s|
  {
    match PyIndex(f, |s|)
    case None => Err(IndexOutOfRange)
    case Some(pf) =>
      var rest := RemoveAt(s, pf);
      var q := InsertPos(t, |rest|);
      Ok(rest[..q] + [s[pf]] + rest[q..])
  }

  /** After a move the moved item sits at its new position and the other
      items keep their relative order. */
  lemma MoveShape<T>(s: seq<T>, f: int, t: int)
    requires PyMove(s, f, t).Ok?
    ensures var pf := PyIndex(f, |s|).value;
            var q := InsertPos(t, |s| - 1);
            var r := PyMove(s, f, t).value;
            q < |r| && r[q] == s[pf] && RemoveAt(r, q) == RemoveAt(s, pf)
  {
    var pf := PyIndex(f, |s|).value;
    var rest := RemoveAt(s, pf);
    var q := InsertPos(t, |rest|);
    var r := rest[..q] + [s[pf]] + rest[q..];
    assert r[..q] == rest[..q] && r[q + 1..] == rest[q..];
    assert rest[..q] + rest[q..] == rest;
  }

  /** A move neither gains nor loses items. */
  lemma MovePermutes<T>(s: seq<T>, f: int, t: int)
    requires PyMove(s, f, t).Ok?
    ensures multiset(PyMove(s, f, t).value) == multiset(s)
  {
    var pf := PyIndex(f, |s|).value;
    MoveCount(s, pf, InsertPos(t, |s| - 1));
  }

  /** Taking out the item at `pf` and putting it back at `q` keeps the
      contents. */
  lemma MoveCount<T>(s: seq<T>, pf: nat, q: nat)
    requires pf < |s| && q <= |s| - 1
    ensures multiset(RemoveAt(s, pf)[..q] + [s[pf]] + RemoveAt(s, pf)[q..]) == multiset(s)
  {
    var rest := RemoveAt(s, pf);
    var x := s[pf];
    assert multiset(rest[..q] + [x] + rest[q..]) == multiset(rest) + multiset{x} by {
      MultisetInsert(rest[..q], x, rest[q..]);
      assert rest[..q] + rest[q..] == rest;
    }
    assert multiset(s) == multiset(rest) + multiset{x} by {
      assert s == s[..pf] + [x] + s[pf + 1..];
      MultisetInsert(s[..pf], x, s[pf + 1..]);
    }
  }

  /** Putting one element between two parts adds it to their contents. */
  lemma MultisetInsert<T>(a: seq<T>, x: T, b: seq<T>)
    ensures multiset(a + [x] + b) == multiset(a + b) + multiset{x}
  {
    assert multiset(a + [x] + b) == multiset(a) + multiset{x} + multiset(b);
  }

  /** Moving an item to a position inside the list and back restores the
      list. */
  lemma MoveBack<T>(s: seq<T>, f: nat, t: nat)
    requires f < |s| && t < |s|
    ensures PyMove(PyMove(s, f, t).value, t, f) == Ok(s)
  {
    var r := PyMove(s, f, t).value;
    MoveShape(s, f, t);
    assert r[t] == s[f] && RemoveAt(r, t) == RemoveAt(s, f);
    var rest := RemoveAt(r, t);
    assert s[..f] == rest[..f] && s[f + 1..] == rest[f..];
    assert s == rest[..f] + [s[f]] + rest[f..];
  }

  /** `clone(s, t)`: both positions must be in `0..len` (negative positions
      are refused); position `t` then receives `copy`, a deep copy of the
      item at `s` that the caller has made. */
  function PyClone<T>(items: seq<T>, src: int, dst: int, copy: T): (r: Result<seq<T>>)
    ensures r.Ok? <==> 0 <= src < |items| && 0 <= dst < |items|
    ensures r.Err? ==> r.error == IndexOutOfRange
    ensures r.Ok? ==> |r.value| == |items| && r.value[dst] == copy
                      && forall q :: 0 <= q < |items| && q != dst ==> r.value[q] == items[q]
  {
    if !(0 <= src < |items|) then Err(IndexOutOfRange)
    else if !(0 <= dst < |items|) then Err(IndexOutOfRange)
    else Ok(items[dst := copy])
  }

  /** The three levels of the hierarchy. */
  datatype Level = SetlistLevel | PresetLevel | SnapshotLevel

  /** A notification to the MIDI command table: `change_to_setlist(k)`,
      `change_to_preset(k)` or `change_to_snapshot(k)`. */
  datatype Event = Change(level: Level, index: int)

  /** What the activation protocol reads and writes: the items' `_active`
      flags by position, the active index, and the notifications so far. */
  datatype AState = AState(flags: seq<bool>, active: int, events: seq<Event>)

  /** The fixed part of a collection: each position's item's own `index`
      and whether it has an activation callback into this collection. */
  datatype Layout = Layout(level: Level, indices: seq<int>, linked: seq<bool>)

  predicate Fits(l: Layout, s: AState) {
    |l.indices| == |l.linked| == |s.flags|
  }

  /** The `_active_index` setter (collection_base.py): nothing happens when
      the index is already active; otherwise the item at the old index (if
      in range) is deactivated, the index recorded, and the item at the new
      index (if in range) activated.  `fuel` bounds the nesting of
      activation callbacks, which Python bounds by its recursion limit. */
  function SetIndex(l: Layout, s: AState, k: int, fuel: nat): (r: (AState, Outcome))
    requires Fits(l, s)
    ensures Fits(l, r.0)
    decreases fuel, 1
  {
    if s.active == k then (s, Pass)
    else
      var n := |s.flags|;
      var s1 := if 0 <= s.active < n then s.(flags := s.flags[s.active := false]) else s;
      var s2 := s1.(active := k);
      if 0 <= k < n then Activate(l, s2, k, fuel) else (s2, Pass)
  }

  /** `item.active = True` for the item at position `p`: an item with a
      callback first calls it with its own `index`, and is flagged only if
      the callback returns. */
  function Activate(l: Layout, s: AState, p: nat, fuel: nat): (r: (AState, Outcome))
    requires Fits(l, s) && p < |s.flags|
    ensures Fits(l, r.0)
    decreases fuel, 0
  {
    if !l.linked[p] then (s.(flags := s.flags[p := true]), Pass)
    else if fuel == 0 then (s, Fail(RecursionLimit))
    else
      var (s1, o) := Notify(l, s, l.indices[p], fuel - 1);
      if o.Fail? then (s1, o) else (s1.(flags := s1.flags[p := true]), Pass)
  }

  /** The index a notification carries once the setter has left the state
      `s1`: `_set_active_setlist` sends `self._active_index` as it now
      stands, `_set_active_preset` the index it was given. */
  function Notified(level: Level, s1: AState, k: int): (r: int)
    ensures level == SetlistLevel ==> r == s1.active
    ensures level != SetlistLevel ==> r == k
  {
    if level == SetlistLevel then s1.active else k
  }

  /** `_set_active_setlist(k)` / `_set_active_preset(k)`: the setter, then
      the MIDI notification (see `Notified`). */
  function Notify(l: Layout, s: AState, k: int, fuel: nat): (r: (AState, Outcome))
    requires Fits(l, s)
    ensures Fits(l, r.0)
    decreases fuel, 2
  {
    var (s1, o) := SetIndex(l, s, k, fuel);
    if o.Fail? then (s1, o) else (s1.(events := s1.events + [Change(l.level, Notified(l.level, s1, k))]), Pass)
  }

  /** Every item sits at its own index and has its callback: the state of a
      collection that was never reordered or cloned into. */
  predicate Identity(l: Layout) {
    |l.indices| == |l.linked|
    && forall p :: 0 <= p < |l.indices| ==> l.indices[p] == p && l.linked[p]
  }

  /** Exactly the item at `a` is flagged. */
  predicate OnlyActive(flags: seq<bool>, a: int) {
    forall p :: 0 <= p < |flags| ==> (flags[p] <==> p == a)
  }

  /** In an unreordered collection, notifying a change to another index in
      range deactivates the old item, activates the new one, and notifies
      the change twice: once from inside the new item's callback and once
      from the outer call. */
  lemma NotifyIdentity(l: Layout, s: AState, k: int, fuel: nat)
    requires Fits(l, s) && Identity(l) && 0 <= k < |s.flags| && k != s.active && fuel >= 1
    ensures var flags := if 0 <= s.active < |s.flags| then s.flags[s.active := false] else s.flags;
            Notify(l, s, k, fuel)
            == (AState(flags[k := true], k, s.events + [Change(l.level, k), Change(l.level, k)]), Pass)
  {
    var flags := if 0 <= s.active < |s.flags| then s.flags[s.active := false] else s.flags;
    var s2 := AState(flags, k, s.events);
    assert SetIndex(l, s, k, fuel) == Activate(l, s2, k, fuel);
    assert SetIndex(l, s2, k, fuel - 1) == (s2, Pass);
    assert Notify(l, s2, k, fuel - 1) == (s2.(events := s.events + [Change(l.level, k)]), Pass);
    var a := AState(flags[k := true], k, s.events + [Change(l.level, k)]);
    assert Activate(l, s2, k, fuel) == (a, Pass);
    assert Notify(l, s, k, fuel) == (a.(events := a.events + [Change(l.level, k)]), Pass);
    assert a.events + [Change(l.level, k)] == s.events + [Change(l.level, k), Change(l.level, k)];
  }

  /** Notifying the index that is already active changes nothing but the
      notification log. */
  lemma NotifySame(l: Layout, s: AState, fuel: nat)
    requires Fits(l, s)
    ensures Notify(l, s, s.active, fuel) == (s.(events := s.events + [Change(l.level, s.active)]), Pass)
  {
  }

  /** An index out of range is recorded without activating anything. */
  lemma NotifyOutOfRange(l: Layout, s: AState, k: int, fuel: nat)
    requires Fits(l, s) && !(0 <= k < |s.flags|) && k != s.active
    ensures var flags := if 0 <= s.active < |s.flags| then s.flags[s.active := false] else s.flags;
            Notify(l, s, k, fuel) == (AState(flags, k, s.events + [Change(l.level, k)]), Pass)
  {
  }

  /** After `swap(0, 1)` and `clone(0, 1)` the item at position 0 has index
      1 and position 1 has no callback.  Making position 0 active then
      settles on index 1, and both notifications carry the settled index 1,
      not the requested 0. */
  lemma ReorderedNotifyExample()
    ensures var l := Layout(SetlistLevel, [1, 1, 2], [true, false, true]);
            Notify(l, AState([false, false, true], 2, []), 0, 5)
            == (AState([true, true, false], 1, [Change(SetlistLevel, 1), Change(SetlistLevel, 1)]), Pass)
  {
    var l := Layout(SetlistLevel, [1, 1, 2], [true, false, true]);
    var e := Change(SetlistLevel, 1);
    var s, s2, s3 := AState([false, false, true], 2, []), AState([false, false, false], 0, []), AState([false, false, false], 1, []);
    assert s.flags[2 := false] == s2.flags;
    assert SetIndex(l, s, 0, 5) == Activate(l, s2, 0, 5);
    assert s2.flags[0 := false] == s3.flags;
    assert SetIndex(l, s2, 1, 4) == Activate(l, s3, 1, 4);
    assert s3.flags[1 := true] == [false, true, false];
    assert Activate(l, s3, 1, 4) == (AState([false, true, false], 1, []), Pass);
    var n := AState([false, true, false], 1, []);
    assert Notified(SetlistLevel, n, 1) == 1 && n.events + [e] == [e];
    assert Notify(l, s2, 1, 4) == (n.(events := [e]), Pass);
    assert [false, true, false][0 := true] == [true, true, false];
    assert Activate(l, s2, 0, 5) == (AState([true, true, false], 1, [e]), Pass);
    assert [e] + [e] == [e, e];
  }

  /** The usual case in full: with exactly the active item flagged, a change
      leaves exactly the new item flagged and the new index active. */
  lemma NotifyKeepsOneActive(l: Layout, s: AState, k: int, fuel: nat)
    requires Fits(l, s) && Identity(l) && 0 <= k < |s.flags| && fuel >= 1
    requires OnlyActive(s.flags, s.active)
    ensures Notify(l, s, k, fuel).1 == Pass
    ensures OnlyActive(Notify(l, s, k, fuel).0.flags, k) && Notify(l, s, k, fuel).0.active == k
  {
    if k != s.active {
      NotifyIdentity(l, s, k, fuel);
    }
  }

  /** `items[k].active = True` on an unreordered collection: the callback
      runs the whole change, then the flag is set again; the change is
      notified twice. */
  lemma ActivateIdentity(l: Layout, s: AState, k: nat, fuel: nat)
    requires Fits(l, s) && Identity(l) && k < |s.flags| && k != s.active && fuel >= 2
    requires OnlyActive(s.flags, s.active)
    ensures var r := Activate(l, s, k, fuel);
            r.1 == Pass && OnlyActive(r.0.flags, k) && r.0.active == k
            && r.0.events == s.events + [Change(l.level, k), Change(l.level, k)]
  {
    NotifyIdentity(l, s, k, fuel - 1);
  }

  /** After two items have been swapped (each at the other's index), making
      one of them active never returns: each activation callback changes the
      index back to the other one, until the recursion limit. */
  lemma {:induction false} SwappedPairNeverSettles(l: Layout, s: AState, a: nat, b: nat, fuel: nat)
    requires Fits(l, s) && a < |s.flags| && b < |s.flags| && a != b
    requires l.indices[a] == b && l.indices[b] == a && l.linked[a] && l.linked[b]
    requires s.active == a
    ensures Notify(l, s, b, fuel).1 == Fail(RecursionLimit)
    decreases fuel
  {
    var s2 := s.(flags := s.flags[a := false]).(active := b);
    assert SetIndex(l, s, b, fuel) == Activate(l, s2, b, fuel);
    if fuel >= 1 {
      var s3 := s2.(flags := s2.flags[b := false]).(active := a);
      assert SetIndex(l, s2, a, fuel - 1) == Activate(l, s3, a, fuel - 1);
      if fuel >= 2 {
        SwappedPairNeverSettles(l, s3, a, b, fuel - 2);
        assert Activate(l, s3, a, fuel - 1).1 == Fail(RecursionLimit);
        assert Notify(l, s2, a, fuel - 1).1 == Fail(RecursionLimit);
      }
    }
  }

  /** The default bound on nested activation callbacks, standing for
      Python's recursion limit. */
  const RecursionDepth: nat := 1000

  /** `s.index(x)`: the first position holding `x`, if any. */
  function IndexOf<T(==)>(s: seq<T>, x: T): (r: Option<nat>)
    ensures r.Some? <==> x in s
    ensures r.Some? ==> r.value < |s| && s[r.value] == x && x !in s[..r.value]
  {
    if s == [] then None
    else if s[0] == x then Some(0)
    else match IndexOf(s[1..], x)
      case None => None
      case Some(p) =>
        assert s[..p + 1] == [s[0]] + s[1..][..p];
        Some(p + 1)
  }

  /** The `active_item` setter of setlists and presets: the item's
      position (when it is in the collection) becomes the active index
      through the raw setter, then the change to the item's own index is
      notified. */
  function SetItem(l: Layout, s: AState, pos: Option<nat>, k: int, fuel: nat): (r: (AState, Outcome))
    requires Fits(l, s) && (pos.Some? ==> pos.value < |s.flags|)
    ensures Fits(l, r.0)
  {
    var (s1, o) := if pos.Some? then SetIndex(l, s, pos.value, fuel) else (s, Pass);
    if o.Fail? then (s1, o) else Notify(l, s1, k, fuel)
  }

  /** In an unreordered collection, making an item active is the same as
      making its position the active index. */
  lemma SetItemIsNotify(l: Layout, s: AState, k: nat, fuel: nat)
    requires Fits(l, s) && Identity(l) && k < |s.flags| && fuel >= 1
    ensures SetItem(l, s, Some(k), k, fuel) == Notify(l, s, k, fuel)
  {
    if k != s.active {
      var flags := if 0 <= s.active < |s.flags| then s.flags[s.active := false] else s.flags;
      var s2 := AState(flags, k, s.events);
      assert SetIndex(l, s, k, fuel) == Activate(l, s2, k, fuel);
      assert SetIndex(l, s2, k, fuel - 1) == (s2, Pass);
      var a := AState(flags[k := true], k, s.events + [Change(l.level, k)]);
      assert Activate(l, s2, k, fuel) == (a, Pass);
      NotifySame(l, a, fuel);
      NotifyIdentity(l, s, k, fuel);
      assert a.events + [Change(l.level, k)] == s.events + [Change(l.level, k), Change(l.level, k)];
    } else {
      NotifySame(l, s, fuel);
    }
  }

  /** No two positions of `s` hold elements with the same key. */
  ghost predicate DistinctBy<T, U>(s: seq<T>, key: T -> U) {
    forall a, b :: 0 <= a < |s| && 0 <= b < |s| && key(s[a]) == key(s[b]) ==> a == b
  }

  /** A swap keeps the elements distinct. */
  lemma SwapKeepsDistinct<T, U>(s: seq<T>, i: int, j: int, key: T -> U)
    requires DistinctBy(s, key) && PySwap(s, i, j).Ok?
    ensures DistinctBy(PySwap(s, i, j).value, key)
  {
    var r := PySwap(s, i, j).value;
    var pi, pj := PyIndex(i, |s|).value, PyIndex(j, |s|).value;
    forall a, b | 0 <= a < |r| && 0 <= b < |r| && key(r[a]) == key(r[b])
      ensures a == b
    {
      var sa := if a == pi then pj else if a == pj then pi else a;
      var sb := if b == pi then pj else if b == pj then pi else b;
      assert r[a] == s[sa] && r[b] == s[sb];
    }
  }

  /** A move keeps the elements distinct. */
  lemma MoveKeepsDistinct<T, U>(s: seq<T>, f: int, t: int, key: T -> U)
    requires DistinctBy(s, key) && PyMove(s, f, t).Ok?
    ensures DistinctBy(PyMove(s, f, t).value, key)
  {
    var r := PyMove(s, f, t).value;
    var pf := PyIndex(f, |s|).value;
    var rest := RemoveAt(s, pf);
    var q := InsertPos(t, |rest|);
    assert r == rest[..q] + [s[pf]] + rest[q..];
    forall a, b | 0 <= a < |r| && 0 <= b < |r| && key(r[a]) == key(r[b])
      ensures a == b
    {
      var sa := Origin(a, q, pf);
      var sb := Origin(b, q, pf);
      assert r[a] == s[sa] by { OriginHolds(s, pf, q, a); }
      assert r[b] == s[sb] by { OriginHolds(s, pf, q, b); }
    }
  }

  /** Where the element at position `a` after a move from `pf` to `q` came
      from. */
  function Origin(a: nat, q: nat, pf: nat): nat {
    if a == q then pf
    else
      var j := if a < q then a else a - 1;
      if j < pf then j else j + 1
  }

  lemma OriginHolds<T>(s: seq<T>, pf: nat, q: nat, a: nat)
    requires pf < |s| && q <= |s| - 1 && a < |s|
    ensures var rest := RemoveAt(s, pf);
            (rest[..q] + [s[pf]] + rest[q..])[a] == s[Origin(a, q, pf)]
  {
  }

  /** A clone whose copy is new keeps the elements distinct. */
  lemma CloneKeepsDistinct<T, U>(s: seq<T>, src: int, dst: int, copy: T, key: T -> U)
    requires DistinctBy(s, key) && PyClone(s, src, dst, copy).Ok?
    requires forall q :: 0 <= q < |s| ==> key(s[q]) != key(copy)
    ensures DistinctBy(PyClone(s, src, dst, copy).value, key)
  {
  }

  /** A new collection starts with position 0 active: notifying and then
      activating it, or activating and then notifying it, both flag it and
      notify the change twice. */
  lemma StartUp(l: Layout, s: AState, fuel: nat)
    requires Fits(l, s) && Identity(l) && |s.flags| > 0 && s.active == 0 && fuel >= 1
    ensures var e := Change(l.level, 0);
            var done := (AState(s.flags[0 := true], 0, s.events + [e, e]), Pass);
            var n := Notify(l, s, 0, fuel);
            var a := Activate(l, s, 0, fuel);
            n.1 == Pass && Activate(l, n.0, 0, fuel) == done
            && a.1 == Pass && Notify(l, a.0, 0, fuel) == done
  {
    var e := Change(l.level, 0);
    var s1 := s.(events := s.events + [e]);
    NotifySame(l, s, fuel);
    NotifySame(l, s, fuel - 1);
    NotifySame(l, s1, fuel - 1);
    var s3 := s1.(flags := s.flags[0 := true]);
    NotifySame(l, s3, fuel);
    assert s1.events + [e] == s.events + [e, e];
  }
}
