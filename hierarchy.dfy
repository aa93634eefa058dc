/** Setlists and presets and their collections (helixapi/setlist.py,
    helixapi/preset.py, helixapi/setlists.py, helixapi/presets.py and
    helixapi/utils/collection_base.py).  Every item views the one shared
    document through its own `DataManager`; a collection owns the item
    objects, the active index and the MIDI notifications it has sent. */
module Hierarchy {
  import opened Prelude
  import opened PyStr
  import opened JsonDoc
  import opened Resolver
  import opened Files
  import opened Standards
  import opened Items
  import opened Collections

  /** The name `reset_setlist` gives the setlist at `index`. */
  function SetlistName(index: int): string {
    "SETLIST " + IntToString(index + 1)
  }

  /** A setlist or a preset: its position when created, its item, whether
      it holds an activation callback into its collection (every item a
      collection creates does; a deep copy does not reach the collection),
      and its `_active` flag. */
  class Entity {
    const level: Level
    const index: int
    const item: Item
    const linked: bool
    var active: bool

    constructor(level: Level, index: int, item: Item, linked: bool)
      ensures this.level == level && this.index == index && this.item == item && this.linked == linked
      ensures !active
    {
      this.level := level;
      this.index := index;
      this.item := item;
      this.linked := linked;
      active := false;
    }

    /** `reset_setlist`: the setlist template is imported, then the setlist
        is renamed after its position. */
    method ResetSetlist(disk: Disk, c: Codec) returns (r: Outcome)
      requires level == SetlistLevel && item.kind == "setlist"
      modifies item.dm, item.dm.doc
      ensures var loaded := Files.ImportFile(disk.fs, c, item.Source("").value);
              && (loaded.Err? ==> r == Fail(loaded.error) && unchanged(item.dm, item.dm.doc))
              && (loaded.Ok? ==>
                    var a := item.dm.Access(old(item.dm.doc.root), "root", loaded.value.0);
                    && (a.1.Err? ==> r == Fail(a.1.error) && item.dm.doc.root == a.0 && item.dm.metadata == old(item.dm.metadata))
                    && (a.1.Ok? ==>
                          item.dm.metadata == loaded.value.1
                          && (|SetlistName(index)| > MaxNameLength ==> r == Fail(NameTooLong) && item.dm.doc.root == a.0)
                          && (|SetlistName(index)| <= MaxNameLength ==>
                                var b := item.dm.Access(a.0, "name", JStr(SetlistName(index)));
                                item.dm.doc.root == b.0 && (r.Pass? <==> b.1.Ok?))))
    {
      assert MemberByName(item.kind).Ok?;
      r := item.ImportFile(disk, c, "");
      if r.Pass? {
        r := item.SetName(SetlistName(index));
      }
    }

    /** `reset_preset`: the preset template is imported, name included. */
    method ResetPreset(disk: Disk, c: Codec) returns (r: Outcome)
      requires level == PresetLevel && item.kind == "preset"
      modifies item.dm, item.dm.doc
      ensures var loaded := Files.ImportFile(disk.fs, c, item.Source("").value);
              && (loaded.Err? ==> r == Fail(loaded.error) && unchanged(item.dm, item.dm.doc))
              && (loaded.Ok? ==>
                    var a := item.dm.Access(old(item.dm.doc.root), "root", loaded.value.0);
                    item.dm.doc.root == a.0
                    && (a.1.Err? ==> r == Fail(a.1.error) && item.dm.metadata == old(item.dm.metadata))
                    && (a.1.Ok? ==> r == Pass && item.dm.metadata == loaded.value.1))
    {
      assert MemberByName(item.kind).Ok?;
      r := item.ImportFile(disk, c, "");
    }

    /** The preset's `_active_snapshot_index`: its `current_snapshot`
        field. */
    method ActiveSnapshotIndex() returns (r: Result<Json>)
      modifies item.dm.doc
      ensures (item.dm.doc.root, r) == item.dm.Access(old(item.dm.doc.root), "current_snapshot", JNull)
    {
      r := item.dm.GetData("current_snapshot");
    }

    /** The `_active_snapshot_index` setter. */
    method SetActiveSnapshotIndex(k: int) returns (r: Outcome)
      modifies item.dm.doc
      ensures var a := item.dm.Access(old(item.dm.doc.root), "current_snapshot", JInt(k));
              item.dm.doc.root == a.0 && (r.Fail? <==> a.1.Err?) && (r.Fail? ==> r.error == a.1.error)
    {
      r := item.dm.SetData("current_snapshot", JInt(k));
    }

    /** `copy.deepcopy` of the entity: new objects all the way down to a
        copy of the document, holding what the original holds. */
    method Copy() returns (e: Entity)
      ensures fresh(e) && fresh(e.item) && fresh(e.item.dm) && fresh(e.item.dm.doc)
      ensures e.level == level && e.index == index && e.active == active && !e.linked
      ensures e.item.kind == item.kind && e.item.standards == item.standards
      ensures e.item.dm.mapping == item.dm.mapping && e.item.dm.kind == item.dm.kind
      ensures e.item.dm.coords == item.dm.coords && e.item.dm.template == item.dm.template
      ensures e.item.dm.metadata == item.dm.metadata && e.item.dm.doc.root == item.dm.doc.root
    {
      var doc := new Document(item.dm.doc.root);
      var dm := new DataManager(doc, item.dm.mapping, item.dm.kind, item.dm.coords, item.dm.template, item.dm.metadata);
      var it := new Item(item.kind, dm, item.standards);
      e := new Entity(level, index, it, false);
      e.active := active;
    }
  }

  /** The entity has imported the file `path` names (its kind's template
      for no path): the file loads and its header is the entity's
      metadata. */
  ghost predicate Imported(e: Entity, fs: FileSystem, c: Codec, path: string)
    reads e.item.dm
  {
    && e.item.Source(path).Ok?
    && var loaded := Files.ImportFile(fs, c, e.item.Source(path).value);
    && loaded.Ok? && e.item.dm.metadata == loaded.value.1
  }

  /** The key that tells the entities of a collection apart. */
  function Dm(e: Entity): DataManager {
    e.item.dm
  }

  /** The fixed part of the activation protocol for a list of entities. */
  function ShapeOf(level: Level, s: seq<Entity>): (l: Layout)
    ensures |l.indices| == |l.linked| == |s| && l.level == level
    ensures forall p :: 0 <= p < |s| ==> l.indices[p] == s[p].index && l.linked[p] == s[p].linked
  {
    Layout(level, seq(|s|, p requires 0 <= p < |s| => s[p].index), seq(|s|, p requires 0 <= p < |s| => s[p].linked))
  }

  /** The entities' `_active` flags, by position. */
  ghost function FlagsOf(s: seq<Entity>): (r: seq<bool>)
    reads s
    ensures |r| == |s| && forall p :: 0 <= p < |s| ==> r[p] == s[p].active
  {
    seq(|s|, p reads s requires 0 <= p < |s| => s[p].active)
  }

  /** The state after the initial activation and notification of position
      0, starting from no events. */
  lemma StartedState(s0: AState, s: AState, level: Level)
    requires s0.events == [] && |s0.flags| > 0
    requires s == AState(s0.flags[0 := true], 0, s0.events + [Change(level, 0), Change(level, 0)])
    ensures s.active == 0 && s.events == [Change(level, 0), Change(level, 0)] && s.flags == s0.flags[0 := true]
  {
  }

  /** Flags that were all clear and now have only position 0 set leave
      exactly the first entity active. */
  lemma FirstOnlyActive(s: seq<Entity>, f: seq<bool>)
    requires |f| > 0 && FlagsOf(s) == f[0 := true]
    requires forall p :: 0 <= p < |f| ==> !f[p]
    ensures forall p :: 0 <= p < |s| ==> s[p].active == (p == 0)
  {
    forall p | 0 <= p < |s|
      ensures s[p].active == (p == 0)
    {
      assert FlagsOf(s)[p] == s[p].active;
    }
  }

  /** How many items a collection of the given level holds. */
  function Capacity(level: Level): nat {
    match level
    case SetlistLevel => MaxSetlists
    case PresetLevel => MaxPresets
    case SnapshotLevel => MaxSnapshots
  }

  /** Where the document keeps the item at position `p` of a collection. */
  function CoordsAt(level: Level, setlist: Option<nat>, p: nat): Coords {
    if level == SetlistLevel then Coords(Some(p), None, None) else Coords(setlist, Some(p), None)
  }

  /** A generic export file name: type, position and extension. */
  function GenericPath(dir: string, t: FileType, p: nat): string {
    PathJoin(dir, TypeName(t) + "_" + NatToString(p) + "." + Extension(t))
  }

  /** Two positions never share a generic file name. */
  lemma GenericPathsDiffer(dir: string, t: FileType, p: nat, q: nat)
    requires p != q
    ensures GenericPath(dir, t, p) != GenericPath(dir, t, q)
    ensures GenericPath(dir, t, p) != ""
  {
    var pre := TypeName(t) + "_";
    var suf := "." + Extension(t);
    var head := if dir == [] || dir[|dir| - 1] == '/' then dir else dir + "/";
    GenericPathShape(dir, t, p);
    GenericPathShape(dir, t, q);
    if GenericPath(dir, t, p) == GenericPath(dir, t, q) {
      SameFrame(head + pre, NatToString(p), NatToString(q), suf);
      NatToStringInjective(p, q);
    }
  }

  lemma GenericPathShape(dir: string, t: FileType, p: nat)
    ensures var head := if dir == [] || dir[|dir| - 1] == '/' then dir else dir + "/";
            GenericPath(dir, t, p) == (head + (TypeName(t) + "_")) + NatToString(p) + ("." + Extension(t))
  {
    var pre, n, suf := TypeName(t) + "_", NatToString(p), "." + Extension(t);
    var b := TypeName(t) + "_" + NatToString(p) + "." + Extension(t);
    assert b == pre + n + suf;
    assert b[0] != '/' by {
      assert b[0] == TypeName(t)[0];
    }
    var head := if dir == [] || dir[|dir| - 1] == '/' then dir else dir + "/";
    assert PathJoin(dir, b) == head + b;
    assert head + (pre + n + suf) == (head + pre) + n + suf;
  }

  /** The list comprehension of the collection constructors: `n` new
      entities, each at its own index, linked to the collection, inactive,
      with a new `DataManager` on the shared document. */
  method NewEntities(level: Level, k: string, doc: Document, mapping: map<string, map<string, string>>,
                     template: Json, standards: Config, setlist: Option<nat>) returns (es: seq<Entity>)
    ensures |es| == Capacity(level) && DistinctBy(es, Dm)
    ensures forall p :: 0 <= p < |es| ==>
              var dm := es[p].item.dm;
              fresh(es[p]) && fresh(dm)
              && es[p].level == level && es[p].index == p && es[p].linked && !es[p].active
              && es[p].item.kind == k && es[p].item.standards == standards && dm.doc == doc
              && dm.coords == CoordsAt(level, setlist, p) && dm.mapping == mapping
              && dm.kind == k && dm.template == template && dm.metadata == JObj(map[])
  {
    var n := Capacity(level);
    es := [];
    var i := 0;
    while i < n
      invariant 0 <= i <= n && |es| == i
      invariant DistinctBy(es, Dm)
      invariant forall p :: 0 <= p < i ==>
                  var dm := es[p].item.dm;
                  fresh(es[p]) && fresh(dm)
                  && es[p].level == level && es[p].index == p && es[p].linked && !es[p].active
                  && es[p].item.kind == k && es[p].item.standards == standards && dm.doc == doc
                  && dm.coords == CoordsAt(level, setlist, p) && dm.mapping == mapping
                  && dm.kind == k && dm.template == template && dm.metadata == JObj(map[])
    {
      var dm := new DataManager(doc, mapping, k, CoordsAt(level, setlist, i), template, JObj(map[]));
      var it := new Item(k, dm, standards);
      var e := new Entity(level, i, it, true);
      es := es + [e];
      i := i + 1;
    }
  }

  /** `Setlists` / `Presets` over `CollectionBase`: the entities in their
      current order, the private active index, and the MIDI notifications
      (`change_to_setlist` / `change_to_preset`) sent so far. */
  class Collection {
    const level: Level
    const kind: string
    var items: seq<Entity>
    var activeIndex: int
    var events: seq<Event>

    /** No two positions hold the same entity (nor entities sharing a
        `DataManager`), and every entity is of the collection's kind. */
    ghost predicate Valid()
      reads this
    {
      DistinctBy(items, Dm)
      && forall p :: 0 <= p < |items| ==> items[p].level == level && items[p].item.kind == kind
    }

    /** What the activation protocol sees of the collection. */
    ghost function State(): AState
      reads this, items
    {
      AState(FlagsOf(items), activeIndex, events)
    }

    ghost function Dms(): set<DataManager>
      reads this
    {
      set p | 0 <= p < |items| :: items[p].item.dm
    }

    ghost function Docs(): set<Document>
      reads this
    {
      set p | 0 <= p < |items| :: items[p].item.dm.doc
    }

    /** `Setlists(data)` / `Presets(data, setlist_index)`: a full list of
        new items at their own positions, then the initial activation of
        position 0 (a setlist collection notifies and then activates, a
        preset collection activates and then notifies). */
    constructor(level: Level, doc: Document, mapping: map<string, map<string, string>>,
                template: Json, standards: Config, setlist: Option<nat>)
      requires level != SnapshotLevel
      ensures this.level == level && kind == (if level == SetlistLevel then "setlist" else "preset")
      ensures Valid() && |items| == Capacity(level) && Identity(ShapeOf(level, items))
      ensures forall p :: 0 <= p < |items| ==>
                var dm := items[p].item.dm;
                fresh(items[p]) && fresh(dm) && dm.doc == doc && dm.coords == CoordsAt(level, setlist, p)
                && dm.mapping == mapping && dm.kind == kind && dm.template == template
                && dm.metadata == JObj(map[]) && items[p].item.standards == standards
      ensures activeIndex == 0 && events == [Change(level, 0), Change(level, 0)]
      ensures forall p :: 0 <= p < |items| ==> items[p].active == (p == 0)
    {
      var k := if level == SetlistLevel then "setlist" else "preset";
      this.level := level;
      kind := k;
      var es := NewEntities(level, k, doc, mapping, template, standards, setlist);
      items := es;
      activeIndex := 0;
      events := [];
      new;
      assert Valid();
      assert Identity(ShapeOf(level, items));
      Start(RecursionDepth);
    }

    /** The initial activation of position 0 in a new collection. */
    method Start(fuel: nat)
      requires Valid() && |items| > 0 && Identity(ShapeOf(level, items)) && fuel >= 1
      requires activeIndex == 0 && events == [] && forall p :: 0 <= p < |items| ==> !items[p].active
      modifies this, items
      ensures Valid() && items == old(items)
      ensures activeIndex == 0 && events == [Change(level, 0), Change(level, 0)]
      ensures forall p :: 0 <= p < |items| ==> items[p].active == (p == 0)
    {
      if level == SetlistLevel {
        StartNotifying(fuel);
      } else {
        StartActivating(fuel);
      }
    }

    /** `Setlists.__init__`: position 0 is notified, then activated. */
    method StartNotifying(fuel: nat)
      requires Valid() && |items| > 0 && Identity(ShapeOf(level, items)) && fuel >= 1
      requires activeIndex == 0 && events == [] && forall p :: 0 <= p < |items| ==> !items[p].active
      modifies this, items
      ensures Valid() && items == old(items)
      ensures activeIndex == 0 && events == [Change(level, 0), Change(level, 0)]
      ensures forall p :: 0 <= p < |items| ==> items[p].active == (p == 0)
    {
      ghost var l, s0 := ShapeOf(level, items), State();
      assert s0.events == [] && forall p :: 0 <= p < |s0.flags| ==> !s0.flags[p];
      StartUp(l, s0, fuel);
      var o := Notify(0, fuel);
      assert (State(), o) == Collections.Notify(l, s0, 0, fuel);
      o := ActivateAt(0, fuel);
      ghost var s := State();
      StartedState(s0, s, level);
      FirstOnlyActive(items, s0.flags);
    }

    /** `Presets.__init__`: position 0 is activated, then notified. */
    method StartActivating(fuel: nat)
      requires Valid() && |items| > 0 && Identity(ShapeOf(level, items)) && fuel >= 1
      requires activeIndex == 0 && events == [] && forall p :: 0 <= p < |items| ==> !items[p].active
      modifies this, items
      ensures Valid() && items == old(items)
      ensures activeIndex == 0 && events == [Change(level, 0), Change(level, 0)]
      ensures forall p :: 0 <= p < |items| ==> items[p].active == (p == 0)
    {
      ghost var l, s0 := ShapeOf(level, items), State();
      assert s0.events == [] && forall p :: 0 <= p < |s0.flags| ==> !s0.flags[p];
      StartUp(l, s0, fuel);
      var o := ActivateAt(0, fuel);
      assert (State(), o) == Activate(l, s0, 0, fuel);
      o := Notify(0, fuel);
      ghost var s := State();
      StartedState(s0, s, level);
      FirstOnlyActive(items, s0.flags);
    }

    /** Sets one entity's flag (`item.active = False` never calls back). */
    method SetFlag(p: nat, value: bool)
      requires Valid() && p < |items|
      modifies items[p]
      ensures State() == old(State()).(flags := old(State()).flags[p := value])
    {
      ghost var before := FlagsOf(items);
      items[p].active := value;
      forall q | 0 <= q < |items| && q != p
        ensures items[q].active == before[q]
      {
        assert Dm(items[q]) != Dm(items[p]);
      }
      assert FlagsOf(items) == before[p := value];
    }

    /** The `_active_index` setter of `CollectionBase`. */
    method SetIndex(k: int, fuel: nat) returns (o: Outcome)
      requires Valid()
      modifies this, items
      ensures Valid() && items == old(items)
      ensures (State(), o) == Collections.SetIndex(ShapeOf(level, items), old(State()), k, fuel)
      decreases fuel, 1
    {
      if activeIndex == k {
        return Pass;
      }
      if 0 <= activeIndex < |items| {
        SetFlag(activeIndex, false);
      }
      activeIndex := k;
      if 0 <= k < |items| {
        o := ActivateAt(k, fuel);
      } else {
        o := Pass;
      }
    }

    /** `items[p].active = True`: a linked entity first calls back with its
        own index; the flag is set when the callback returns. */
    method ActivateAt(p: nat, fuel: nat) returns (o: Outcome)
      requires Valid() && p < |items|
      modifies this, items
      ensures Valid() && items == old(items)
      ensures (State(), o) == Activate(ShapeOf(level, items), old(State()), p, fuel)
      decreases fuel, 0
    {
      var e := items[p];
      if !e.linked {
        SetFlag(p, true);
        return Pass;
      }
      if fuel == 0 {
        return Fail(RecursionLimit);
      }
      o := Notify(e.index, fuel - 1);
      if o.Fail? {
        return;
      }
      SetFlag(p, true);
    }

    /** `_set_active_setlist(k)` / `_set_active_preset(k)`, which the
        `active_index` setter calls: the index setter, then the MIDI
        notification. */
    method Notify(k: int, fuel: nat) returns (o: Outcome)
      requires Valid()
      modifies this, items
      ensures Valid() && items == old(items)
      ensures (State(), o) == Collections.Notify(ShapeOf(level, items), old(State()), k, fuel)
      decreases fuel, 2
    {
      o := SetIndex(k, fuel);
      if o.Fail? {
        return;
      }
      events := events + [Change(level, if level == SetlistLevel then activeIndex else k)];
    }

    /** The `active_item` getter: the entity at the active index, which
        counts from the end when negative. */
    function ActiveItem(): (r: Result<Entity>)
      reads this
      ensures r.Ok? <==> -|items| <= activeIndex < |items|
      ensures r.Err? ==> r.error == IndexOutOfRange
      ensures r.Ok? ==> r.value in items
                        && (activeIndex >= 0 ==> r.value == items[activeIndex])
                        && (activeIndex < 0 ==> r.value == items[|items| + activeIndex])
    {
      match PyIndex(activeIndex, |items|)
      case Some(p) => Ok(items[p])
      case None => Err(IndexOutOfRange)
    }

    /** The `active_item` setter of setlists and presets: the raw index
        setter with the item's position when it is in the collection, then
        `_set_active_*` with the item's own index. */
    method SetActiveItem(e: Entity, fuel: nat) returns (o: Outcome)
      requires Valid()
      modifies this, items
      ensures Valid() && items == old(items)
      ensures (State(), o) == SetItem(ShapeOf(level, items), old(State()), IndexOf(items, e), e.index, fuel)
    {
      var pos := IndexOf(items, e);
      if pos.Some? {
        o := SetIndex(pos.value, fuel);
        if o.Fail? {
          return;
        }
      }
      o := Notify(e.index, fuel);
    }

    /** `swap(i, j)`: only the order of the entities changes. */
    method Swap(i: int, j: int) returns (o: Outcome)
      requires Valid()
      modifies this
      ensures Valid() && activeIndex == old(activeIndex) && events == old(events)
      ensures var sw := PySwap(old(items), i, j);
              && (sw.Ok? ==> o == Pass && items == sw.value)
              && (sw.Err? ==> o == Fail(sw.error) && items == old(items))
    {
      var sw := PySwap(items, i, j);
      if sw.Err? {
        return Fail(sw.error);
      }
      SwapKeepsDistinct(items, i, j, Dm);
      items := sw.value;
      o := Pass;
    }

    /** `move(f, t)`: only the order of the entities changes. */
    method Move(f: int, t: int) returns (o: Outcome)
      requires Valid()
      modifies this
      ensures Valid() && activeIndex == old(activeIndex) && events == old(events)
      ensures var mv := PyMove(old(items), f, t);
              && (mv.Ok? ==> o == Pass && items == mv.value)
              && (mv.Err? ==> o == Fail(mv.error) && items == old(items))
    {
      var mv := PyMove(items, f, t);
      if mv.Err? {
        return Fail(mv.error);
      }
      MoveKeepsDistinct(items, f, t, Dm);
      MovePermutes(items, f, t);
      forall p | 0 <= p < |mv.value|
        ensures mv.value[p].level == level && mv.value[p].item.kind == kind
      {
        assert mv.value[p] in multiset(items);
      }
      items := mv.value;
      o := Pass;
    }

    /** `clone(src, dst)`: both positions must be in range (negative
        positions are refused); position `dst` then holds a deep copy of
        the entity at `src`, detached from the collection and from the
        shared document. */
    method Clone(src: int, dst: int) returns (o: Outcome)
      requires Valid()
      modifies this
      ensures Valid() && activeIndex == old(activeIndex) && events == old(events)
      ensures |items| == |old(items)|
      ensures !(0 <= src < |old(items)| && 0 <= dst < |old(items)|) ==>
                o == Fail(IndexOutOfRange) && items == old(items)
      ensures 0 <= src < |old(items)| && 0 <= dst < |old(items)| ==>
                var e, c := old(items)[src], items[dst];
                o == Pass && PyClone(old(items), src, dst, c) == Ok(items)
                && fresh(c) && fresh(c.item.dm) && fresh(c.item.dm.doc)
                && c.index == e.index && c.active == e.active && !c.linked
                && c.item.kind == e.item.kind && c.item.dm.coords == e.item.dm.coords
                && c.item.dm.doc.root == e.item.dm.doc.root && c.item.dm.metadata == e.item.dm.metadata
    {
      if !(0 <= src < |items|) || !(0 <= dst < |items|) {
        return Fail(IndexOutOfRange);
      }
      var c := items[src].Copy();
      forall q | 0 <= q < |items|
        ensures Dm(items[q]) != Dm(c)
      {
      }
      CloneKeepsDistinct(items, src, dst, c, Dm);
      items := items[dst := c];
      o := Pass;
    }

    /** `_import_files`: the collection's kind must be a setlist or preset
        file type, and at most as many paths as a full collection holds may
        be given; the entities then import the paths in order, as far as
        both lists go, stopping at the first failure. */
    method ImportFiles(disk: Disk, c: Codec, paths: seq<string>) returns (r: Outcome)
      requires Valid()
      modifies Dms(), Docs()
      ensures MemberByName(kind).Err? ==> r == Fail(InvalidTypeName) && unchanged(Dms(), Docs())
      ensures MemberByName(kind) == Ok(Bundle) ==> r == Fail(UnsupportedKind) && unchanged(Dms(), Docs())
      ensures MemberByName(kind).Ok? && MemberByName(kind) != Ok(Bundle)
              && |paths| > (if kind == "setlist" then MaxSetlists else MaxPresets) ==>
                r == Fail(TooManyItems) && unchanged(Dms(), Docs())
      ensures r.Pass? ==> forall p :: 0 <= p < |items| && p < |paths| ==> Imported(items[p], disk.fs, c, paths[p])
    {
      var t := MemberByName(kind);
      if t.Err? {
        return Fail(t.error);
      }
      if t.value == Bundle {
        return Fail(UnsupportedKind);
      }
      var max := if kind == "setlist" then MaxSetlists else MaxPresets;
      if |paths| > max {
        return Fail(TooManyItems);
      }
      var i := 0;
      while i < |items| && i < |paths|
        invariant 0 <= i <= |items|
        invariant forall p :: 0 <= p < i && p < |paths| ==> Imported(items[p], disk.fs, c, paths[p])
      {
        label before:
        r := items[i].item.ImportFile(disk, c, paths[i]);
        if r.Fail? {
          return;
        }
        forall p | 0 <= p < i && p < |paths| ensures Imported(items[p], disk.fs, c, paths[p]) {
          assert Dm(items[p]) != Dm(items[i]);
          assert old@before(Imported(items[p], disk.fs, c, paths[p]));
        }
        assert Imported(items[i], disk.fs, c, paths[i]);
        i := i + 1;
      }
      r := Pass;
    }

    /** `_export_files`: the collection's kind must be a setlist or preset
        file type; each entity is exported in order, to `<type>_<position>`
        in `dir` when `generic`, and otherwise to its own name made unique
        among the files already there, stopping at the first failure.
        `paths` and `written` record, for each entity exported, its path
        and the `root` value it wrote; with lawful encoders every one of
        those files still imports back as what was written. */
    method ExportFiles(disk: Disk, c: Codec, dir: string, generic: bool, now: int)
      returns (r: Outcome, ghost paths: seq<string>, ghost written: seq<Json>)
      requires Valid()
      modifies disk, Dms(), Docs()
      ensures MemberByName(kind).Err? ==> r == Fail(InvalidTypeName) && unchanged(disk)
      ensures MemberByName(kind) == Ok(Bundle) ==> r == Fail(UnsupportedKind) && unchanged(disk)
      ensures |paths| == |written| <= |items| && (r.Pass? ==> |paths| == |items|)
      ensures MemberByName(kind).Ok? && generic ==>
                forall p :: 0 <= p < |paths| ==> paths[p] == GenericPath(dir, MemberByName(kind).value, p)
      ensures MemberByName(kind).Ok? && generic && r.Pass? ==>
                forall p :: 0 <= p < |items| ==> IsFile(disk.fs, GenericPath(dir, MemberByName(kind).value, p))
      ensures !generic ==> forall p :: 0 <= p < |paths| ==> paths[p] !in old(disk.fs)
      ensures !generic ==> forall q :: q in old(disk.fs) ==> q in disk.fs && disk.fs[q] == old(disk.fs)[q]
      ensures Lawful(c) && r.Pass? ==> forall p :: 0 <= p < |paths| ==> ReadsBack(disk.fs, c, paths[p], written[p])
    {
      paths, written := [], [];
      var t := MemberByName(kind);
      if t.Err? {
        return Fail(t.error), paths, written;
      }
      if t.value == Bundle {
        return Fail(UnsupportedKind), paths, written;
      }
      var i := 0;
      while i < |items|
        invariant 0 <= i <= |items| && |paths| == i
        invariant ExportProgress(old(disk.fs), disk.fs, c, dir, generic, t.value, paths, written)
      {
        ghost var before := disk.fs;
        var path;
        ghost var w;
        r, path, w := ExportOne(disk, c, dir, generic, t.value, i, now);
        if r.Fail? {
          FailedExportKeeps(old(disk.fs), before, disk.fs, c, dir, generic, t.value, paths, written, path);
          return r, paths, written;
        }
        ExportStep(old(disk.fs), before, disk.fs, c, dir, generic, t.value, paths, written, path, w);
        paths, written := paths + [path], written + [w];
        i := i + 1;
      }
      r := Pass;
    }

    /** A successful export of one more entity, to `path`, keeps the
        progress of `_export_files`: the earlier files stay as they were,
        and the new one is recorded. */
    lemma ExportStep(start: FileSystem, before: FileSystem, after: FileSystem, c: Codec, dir: string, generic: bool,
                     t: FileType, paths: seq<string>, written: seq<Json>, path: string, w: Json)
      requires ExportProgress(start, before, c, dir, generic, t, paths, written)
      requires forall q :: q != path ==> (q in after <==> q in before) && (q in before ==> after[q] == before[q])
      requires generic ==> path == GenericPath(dir, t, |paths|)
      requires !generic ==> path !in before
      requires IsFile(after, path)
      requires !IsDir(before, path)
      requires Lawful(c) ==> ReadsBack(after, c, path, w)
      ensures ExportProgress(start, after, c, dir, generic, t, paths + [path], written + [w])
    {
      PathsStep(start, before, after, dir, generic, t, paths, path);
      if Lawful(c) {
        ReadsBackKept(before, after, c, path, w, paths, written);
      }
    }

    /** The paths part of `ExportStep`. */
    lemma PathsStep(start: FileSystem, before: FileSystem, after: FileSystem, dir: string, generic: bool,
                    t: FileType, paths: seq<string>, path: string)
      requires PathsDone(start, before, dir, generic, t, paths)
      requires forall q :: q != path ==> (q in after <==> q in before) && (q in before ==> after[q] == before[q])
      requires generic ==> path == GenericPath(dir, t, |paths|)
      requires !generic ==> path !in before
      requires IsFile(after, path)
      ensures PathsDone(start, after, dir, generic, t, paths + [path])
      ensures forall p :: 0 <= p < |paths| ==> paths[p] != path
    {
      if generic {
        GenericPathsStep(before, after, dir, t, paths, path);
      } else {
        NamedPathsStep(start, before, after, paths, path);
      }
    }

    lemma GenericPathsStep(before: FileSystem, after: FileSystem, dir: string, t: FileType, paths: seq<string>, path: string)
      requires forall p :: 0 <= p < |paths| ==> paths[p] == GenericPath(dir, t, p) && IsFile(before, paths[p])
      requires forall q :: q != path ==> (q in after <==> q in before) && (q in before ==> after[q] == before[q])
      requires path == GenericPath(dir, t, |paths|) && IsFile(after, path)
      ensures forall p :: 0 <= p < |paths| + 1 ==>
                (paths + [path])[p] == GenericPath(dir, t, p) && IsFile(after, (paths + [path])[p])
      ensures forall p :: 0 <= p < |paths| ==> paths[p] != path
    {
      forall p | 0 <= p < |paths|
        ensures paths[p] != path && IsFile(after, paths[p])
      {
        GenericPathsDiffer(dir, t, p, |paths|);
      }
    }

    lemma NamedPathsStep(start: FileSystem, before: FileSystem, after: FileSystem, paths: seq<string>, path: string)
      requires forall p :: 0 <= p < |paths| ==> paths[p] in before && paths[p] !in start
      requires forall q :: q in start ==> q in before && before[q] == start[q]
      requires forall q :: q != path ==> (q in after <==> q in before) && (q in before ==> after[q] == before[q])
      requires path !in before && path in after
      ensures forall p :: 0 <= p < |paths| + 1 ==> (paths + [path])[p] in after && (paths + [path])[p] !in start
      ensures forall q :: q in start ==> q in after && after[q] == start[q]
      ensures forall p :: 0 <= p < |paths| ==> paths[p] != path
    {
    }

    /** A failed export to a name not yet on the disk (or no write at all)
        keeps every file that was there at the start. */
    lemma FailedExportKeeps(start: FileSystem, before: FileSystem, after: FileSystem, c: Codec, dir: string, generic: bool,
                            t: FileType, paths: seq<string>, written: seq<Json>, path: string)
      requires ExportProgress(start, before, c, dir, generic, t, paths, written)
      requires forall q :: q != path ==> (q in after <==> q in before) && (q in before ==> after[q] == before[q])
      requires !generic ==> path !in before || after == before
      ensures !generic ==> forall q :: q in start ==> q in after && after[q] == start[q]
    {
    }

    /** One step of `_export_files`: the path for the entity at `i`, and
        its export there; nothing but that path changes on the disk.  What
        is written is the entity's `root` field as the document now holds
        it, with its metadata; `written` is that value, and with lawful
        encoders the file imports back as it. */
    method ExportOne(disk: Disk, c: Codec, dir: string, generic: bool, t: FileType, i: nat, now: int)
      returns (r: Outcome, path: string, ghost written: Json)
      requires Valid() && i < |items|
      modifies disk, items[i].item.dm, items[i].item.dm.doc
      ensures forall q :: q != path ==> (q in disk.fs <==> q in old(disk.fs)) && (q in old(disk.fs) ==> disk.fs[q] == old(disk.fs)[q])
      ensures generic ==> path == GenericPath(dir, t, i)
      ensures r.Pass? ==> IsFile(disk.fs, path)
      ensures !generic && path != "" ==> path !in old(disk.fs)
      ensures path == "" ==> r.Fail? && disk.fs == old(disk.fs)
      ensures ExistsByName(items[i].item.kind) && path != "" ==>
                ExportedFrom(old(disk.fs), old(items[i].item.dm.metadata), c, path, RootOf(items[i].item.dm), now,
                             r, disk.fs, items[i].item.dm.metadata)
      ensures r.Pass? ==> !IsDir(old(disk.fs), path) && RootOf(items[i].item.dm) == Ok(written)
      ensures Lawful(c) && r.Pass? ==> ReadsBack(disk.fs, c, path, written)
    {
      var item := items[i].item;
      if generic {
        path := GenericPath(dir, t, i);
        GenericPathsDiffer(dir, t, i, i + 1);
      } else {
        var name := item.dm.GetData("name");
        if name.Err? {
          return Fail(name.error), "", JNull;
        }
        var shown := Display(name.value);
        if shown.Err? {
          return Fail(shown.error), "", JNull;
        }
        path := UniqueFilename(disk.fs, PathJoin(dir, shown.value + "." + Extension(t)));
      }
      ghost var root0, meta0, fs0 := item.dm.doc.root, item.dm.metadata, disk.fs;
      r := item.ExportFile(disk, c, path, now);
      written := JNull;
      if ExistsByName(item.kind) && path != "" {
        item.dm.ReadIdempotent(root0, "root");
        var data := item.dm.Access(root0, "root", JNull).1;
        if data.Ok? {
          written := data.value;
        }
        ExportedReadsBack(fs0, c, path, data, meta0, now, r);
      }
    }

    /** With lawful encoders, a successful export of `data` imports back as
        `data`. */
    lemma ExportedReadsBack(fs: FileSystem, c: Codec, path: string, data: Result<Json>, metadata: Json, now: int, r: Outcome)
      requires data.Ok? ==> r == Files.ExportFile(fs, c, path, data.value, metadata, now).outcome
      requires data.Err? ==> r.Fail?
      ensures Lawful(c) && r.Pass? ==>
                data.Ok? && ReadsBack(Files.ExportFile(fs, c, path, data.value, metadata, now).fs, c, path, data.value)
    {
      if Lawful(c) && r.Pass? {
        ExportImportRoundTrip(fs, c, path, data.value, metadata, now);
      }
    }

    /** Writing the one path `w`, which is none of `paths` and no directory,
        keeps every one of those files importing as before; `w` itself
        now imports as `x`. */
    lemma ReadsBackKept(before: FileSystem, after: FileSystem, c: Codec, w: string, x: Json,
                        paths: seq<string>, written: seq<Json>)
      requires forall q :: q != w ==> (q in after <==> q in before) && (q in before ==> after[q] == before[q])
      requires |paths| == |written| && !IsDir(before, w) && ReadsBack(after, c, w, x)
      requires forall p :: 0 <= p < |paths| ==> paths[p] != w
      requires AllReadBack(before, c, paths, written)
      ensures AllReadBack(after, c, paths + [w], written + [x])
    {
      forall p | 0 <= p < |paths|
        ensures ReadsBack(after, c, paths[p], written[p])
      {
        ImportFileFrame(before, after, c, paths[p], w);
      }
      var ps, xs := paths + [w], written + [x];
      assert forall p :: 0 <= p < |ps| ==> ReadsBack(after, c, ps[p], xs[p]);
    }
  }

  /** The entity's `root` field, read through its data manager. */
  ghost function RootOf(dm: DataManager): Result<Json>
    reads dm, dm.doc
  {
    dm.Access(dm.doc.root, "root", JNull).1
  }

  /** `ExportFile` of `data` from `fs0`: a failed read writes nothing, and a
      value read is passed on to the file export, whose outcome, files and
      metadata are the result. */
  ghost predicate ExportedFrom(fs0: FileSystem, meta0: Json, c: Codec, path: string, data: Result<Json>, now: int,
                               r: Outcome, fs1: FileSystem, meta1: Json)
  {
    && (data.Err? ==> r == Fail(data.error) && fs1 == fs0)
    && (data.Ok? ==>
          var e := Files.ExportFile(fs0, c, path, data.value, meta0, now);
          r == e.outcome && fs1 == e.fs && meta1 == e.metadata)
  }

  /** The file at `path` imports, and its data is `data`. */
  ghost predicate ReadsBack(fs: FileSystem, c: Codec, path: string, data: Json)
  {
    Files.ImportFile(fs, c, path).Ok? && Files.ImportFile(fs, c, path).value.0 == data
  }

  /** What `_export_files` has done after exporting the entities at
      `paths`, writing `written` to them: see `PathsDone` and
      `AllReadBack`. */
  ghost predicate ExportProgress(start: FileSystem, fs: FileSystem, c: Codec, dir: string, generic: bool,
                                 t: FileType, paths: seq<string>, written: seq<Json>)
  {
    && |paths| == |written|
    && PathsDone(start, fs, dir, generic, t, paths)
    && (Lawful(c) ==> AllReadBack(fs, c, paths, written))
  }

  /** Generic paths are the positional ones and hold files; named paths
      were all new to the disk, and the disk kept every file it had at the
      start. */
  ghost predicate PathsDone(start: FileSystem, fs: FileSystem, dir: string, generic: bool, t: FileType, paths: seq<string>)
  {
    && (generic ==> forall p :: 0 <= p < |paths| ==> paths[p] == GenericPath(dir, t, p) && IsFile(fs, paths[p]))
    && (!generic ==> forall p :: 0 <= p < |paths| ==> paths[p] in fs && paths[p] !in start)
    && (!generic ==> forall q :: q in start ==> q in fs && fs[q] == start[q])
  }

  /** Each file at `paths` imports back as the matching `written` value. */
  ghost predicate AllReadBack(fs: FileSystem, c: Codec, paths: seq<string>, written: seq<Json>)
    requires |paths| == |written|
  {
    forall p :: 0 <= p < |paths| ==> ReadsBack(fs, c, paths[p], written[p])
  }


  /** No entity belongs to two of the collections. */
  ghost predicate Disjoint(cs: seq<Collection>)
    reads cs
  {
    forall i, j, a, b :: 0 <= i < |cs| && 0 <= j < |cs| && i != j && 0 <= a < |cs[i].items| && 0 <= b < |cs[j].items|
      ==> cs[i].items[a] != cs[j].items[b]
  }

  /** A preset collection of setlist `s` as `Presets.__init__` leaves it:
      full, at index 0, every preset on `doc` at coordinates `(s, p)`. */
  ghost predicate PresetsOf(c: Collection, doc: Document, s: nat)
    reads c
  {
    c.level == PresetLevel && c.Valid() && |c.items| == MaxPresets && c.activeIndex == 0
    && forall p :: 0 <= p < |c.items| ==>
         c.items[p].item.dm.doc == doc && c.items[p].item.dm.coords == Coords(Some(s), Some(p), None)
  }

  /** `Presets(data, setlist_index=s)` as `Setlist.__init__` calls it. */
  method NewPresets(doc: Document, mapping: map<string, map<string, string>>, template: Json, standards: Config, s: nat)
    returns (c: Collection)
    ensures fresh(c) && PresetsOf(c, doc, s)
    ensures forall p :: 0 <= p < |c.items| ==> fresh(c.items[p])
  {
    c := new Collection(PresetLevel, doc, mapping, template, standards, Some(s));
    assert c.State().active == 0;
  }

  /** Adding a collection that shares no entity with any of `cs` keeps
      the collections disjoint. */
  lemma DisjointAppend(cs: seq<Collection>, c: Collection)
    requires Disjoint(cs)
    requires forall j, a, b :: 0 <= j < |cs| && 0 <= a < |cs[j].items| && 0 <= b < |c.items| ==> cs[j].items[a] != c.items[b]
    ensures Disjoint(cs + [c])
  {
    var ds := cs + [c];
    forall i, j, a, b | 0 <= i < |ds| && 0 <= j < |ds| && i != j && 0 <= a < |ds[i].items| && 0 <= b < |ds[j].items|
      ensures ds[i].items[a] != ds[j].items[b]
    {
      if i < |cs| && j < |cs| {
        assert ds[i] == cs[i] && ds[j] == cs[j];
      } else if i < |cs| {
        assert ds[i] == cs[i] && ds[j] == c;
      } else {
        assert ds[i] == c && ds[j] == cs[j];
      }
    }
  }

  /** The preset collections of every setlist, one `Presets` per index. */
  method NewPresetsAll(doc: Document, mapping: map<string, map<string, string>>, template: Json, standards: Config)
    returns (ps: seq<Collection>)
    ensures |ps| == MaxSetlists && Disjoint(ps)
    ensures forall i :: 0 <= i < |ps| ==> fresh(ps[i]) && PresetsOf(ps[i], doc, i)
  {
    ps := [];
    var i := 0;
    while i < MaxSetlists
      invariant 0 <= i <= MaxSetlists && |ps| == i && Disjoint(ps)
      invariant forall j :: 0 <= j < i ==> fresh(ps[j]) && PresetsOf(ps[j], doc, j)
      invariant forall j, p :: 0 <= j < i && 0 <= p < |ps[j].items| ==> fresh(ps[j].items[p])
    {
      var c := NewPresets(doc, mapping, template, standards, i);
      DisjointAppend(ps, c);
      ps := ps + [c];
      i := i + 1;
    }
  }

  /** `Setlists(data)` with the `Presets(data, setlist_index=index)` that
      each `Setlist.__init__` builds: every preset collection is over the
      same document, at its setlist's index, and shares no entity with
      another. */
  method NewLibrary(doc: Document, mapping: map<string, map<string, string>>, template: Json, standards: Config)
    returns (setlists: Collection, presets: seq<Collection>)
    ensures setlists.level == SetlistLevel && setlists.Valid() && |setlists.items| == MaxSetlists
    ensures Identity(ShapeOf(SetlistLevel, setlists.items))
    ensures |presets| == |setlists.items| && Disjoint(presets)
    ensures forall i :: 0 <= i < |presets| ==> fresh(presets[i]) && PresetsOf(presets[i], doc, i)
  {
    presets := NewPresetsAll(doc, mapping, template, standards);
    setlists := new Collection(SetlistLevel, doc, mapping, template, standards, None);
  }

  /** Notifying a change in one preset collection leaves the active state
      of every other collection of presets as it was. */
  method NotifyOne(presets: seq<Collection>, i: nat, k: int, fuel: nat) returns (o: Outcome)
    requires i < |presets| && presets[i].Valid() && Disjoint(presets)
    modifies presets[i], presets[i].items
    ensures presets[i].Valid() && presets[i].items == old(presets[i].items)
    ensures (presets[i].State(), o) == Collections.Notify(ShapeOf(presets[i].level, presets[i].items), old(presets[i].State()), k, fuel)
    ensures forall j :: 0 <= j < |presets| && j != i && presets[j] != presets[i] ==> presets[j].State() == old(presets[j].State())
  {
    o := presets[i].Notify(k, fuel);
  }
}
