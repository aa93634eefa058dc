/** A preset's snapshots (helixapi/snapshot.py, helixapi/snapshots.py).
    The active snapshot is not kept by the collection: it is the owning
    preset's `current_snapshot` field, read and written through callbacks
    into the preset. */
module PresetSnapshots {
  import opened Prelude
  import opened PyStr
  import opened JsonDoc
  import opened Resolver
  import opened Standards
  import opened Items
  import opened Collections
  import opened Hierarchy

  /** Python's `v == i` for a document value and an integer: a boolean
      equals 0 or 1, a float equals an integer of the same value, every
      other kind of value differs from every integer. */
  function PyEquals(v: Json, i: int): (r: bool)
    ensures v.JInt? ==> (r <==> v.i == i)
    ensures v.JFloat? ==> (r <==> FloatValue(v.f) == i as real)
    ensures !v.JInt? && !v.JBool? && !v.JFloat? ==> !r
    ensures v.JBool? ==> (r <==> i == (if v.b then 1 else 0))
  {
    match v
    case JInt(n) => n == i
    case JFloat(x) => x.mantissa == i * Pow10(x.exponent)
    case JBool(b) => (if b then 1 else 0) == i
    case _ => false
  }

  /** `items[v]` on a list of length `n`: an integer (or a boolean, as 0
      or 1) with negative values counting from the end; any other value is
      a type error. */
  function ListIndex(v: Json, n: nat): (r: Result<nat>)
    ensures r.Ok? ==> r.value < n
    ensures v.JInt? ==> (r.Ok? <==> -(n as int) <= v.i < n) && (r.Ok? && v.i >= 0 ==> r.value == v.i)
    ensures v.JInt? && r.Err? ==> r.error == IndexOutOfRange
    ensures !v.JInt? && !v.JBool? ==> r == Err(NotAnIndex)
  {
    var k := match v
      case JInt(i) => Some(i)
      case JBool(b) => Some(if b then 1 else 0)
      case _ => None;
    if k.None? then Err(NotAnIndex)
    else match PyIndex(k.value, n)
      case Some(p) => Ok(p)
      case None => Err(IndexOutOfRange)
  }

  /** A snapshot: its index, its item, the collection whose callbacks it
      holds, and the `_active` attribute the collection writes. */
  class Snapshot {
    const index: int
    const item: Item
    const owner: SnapshotSet
    var flag: bool

    constructor(index: int, item: Item, owner: SnapshotSet)
      ensures this.index == index && this.item == item && this.owner == owner && !flag
    {
      this.index := index;
      this.item := item;
      this.owner := owner;
      flag := false;
    }

    /** The `active` getter: whether the collection's active index equals
        this snapshot's index. */
    method IsActive() returns (r: Result<bool>)
      modifies owner.PresetDocs()
      ensures owner.preset == null ==> r == Ok(index == 0)
      ensures owner.preset != null ==>
                var (root1, v) := owner.preset.item.dm.Access(old(owner.preset.item.dm.doc.root), "current_snapshot", JNull);
                owner.preset.item.dm.doc.root == root1
                && (v.Err? ==> r == Err(v.error))
                && (v.Ok? ==> r == Ok(PyEquals(v.value, index)))
    {
      var v := owner.GetActiveIndex();
      if v.Err? {
        return Err(v.error);
      }
      r := Ok(PyEquals(v.value, index));
    }

    /** The `active` setter: `True` makes this snapshot's index the active
        one; `False` does nothing. */
    method SetActive(value: bool) returns (r: Outcome)
      requires owner.Valid()
      modifies owner, owner.items, owner.PresetDocs()
      ensures owner.Valid() && owner.items == old(owner.items)
      ensures !value ==> r == Pass && unchanged(owner, owner.PresetDocs()) && unchanged(owner.items)
      ensures value ==> owner.SetEffect(old(owner.PresetRoot()), old(owner.events), index, r)
    {
      if !value {
        return Pass;
      }
      r := owner.SetActiveIndex(index);
    }

    /** The `ledcolor` setter: only an LED colour is accepted. */
    method SetLedColor(v: Json) returns (r: Outcome)
      modifies item.dm.doc
      ensures !v.JColor? ==> r == Fail(InvalidLedColor) && item.dm.doc.root == old(item.dm.doc.root)
      ensures v.JColor? ==>
                var a := item.dm.Access(old(item.dm.doc.root), "ledcolor", v);
                item.dm.doc.root == a.0 && (r.Pass? <==> a.1.Ok?)
    {
      if !v.JColor? {
        return Fail(InvalidLedColor);
      }
      r := item.dm.SetData("ledcolor", v);
    }
  }

  /** `Snapshots`: eight snapshots of one preset, the preset whose callbacks
      the collection holds (none when created without them), and the MIDI
      notifications (`change_to_snapshot`) sent so far. */
  class SnapshotSet {
    const preset: Entity?
    var items: seq<Snapshot>
    var events: seq<Event>

    /** No snapshot appears twice, and each belongs to this collection. */
    ghost predicate Valid()
      reads this
    {
      (forall a, b :: 0 <= a < |items| && 0 <= b < |items| && items[a] == items[b] ==> a == b)
      && forall p :: 0 <= p < |items| ==> items[p].owner == this
    }

    /** The part of the document the collection's callbacks touch. */
    ghost function PresetDocs(): set<Document> {
      if preset != null then {preset.item.dm.doc} else {}
    }

    ghost function PresetRoot(): Json
      reads PresetDocs()
    {
      if preset != null then preset.item.dm.doc.root else JNull
    }

    /** What `_set_active_index(k)` leaves behind, from the preset's
        document `root0` and the notifications `events0` before it: the
        index written to the preset, then, unless that failed, every
        snapshot flagged exactly when its index is `k` and the change
        notified. */
    ghost predicate SetEffect(root0: Json, events0: seq<Event>, k: int, r: Outcome)
      reads this, items, PresetDocs()
    {
      var written := if preset != null then preset.item.dm.Access(root0, "current_snapshot", JInt(k)).1 else Ok(JInt(k));
      (preset != null ==> preset.item.dm.doc.root == preset.item.dm.Access(root0, "current_snapshot", JInt(k)).0)
      && (written.Err? ==> r == Fail(written.error) && events == events0)
      && (written.Ok? ==>
            r == Pass && events == events0 + [Change(SnapshotLevel, k)]
            && forall p :: 0 <= p < |items| ==> items[p].flag == (items[p].index == k))
    }

    /** `Snapshots(data, setlist_index, preset_index, ...)`: eight new
        snapshots, each at its own index with its own `DataManager` on the
        shared document. */
    constructor(preset: Entity?, doc: Document, mapping: map<string, map<string, string>>,
                template: Json, standards: Config, coords: Coords)
      ensures this.preset == preset && events == [] && Valid() && |items| == MaxSnapshots
      ensures forall p :: 0 <= p < |items| ==>
                var dm := items[p].item.dm;
                fresh(items[p]) && fresh(dm) && items[p].index == p && !items[p].flag
                && items[p].item.kind == "snapshot" && dm.doc == doc && dm.mapping == mapping
                && dm.coords == coords.(snapshot := Some(p)) && dm.template == template
                && dm.metadata == JObj(map[]) && items[p].item.standards == standards
    {
      this.preset := preset;
      events := [];
      new;
      var es: seq<Snapshot> := [];
      var i := 0;
      while i < MaxSnapshots
        invariant 0 <= i <= MaxSnapshots && |es| == i && events == []
        invariant forall a, b :: 0 <= a < i && 0 <= b < i && es[a] == es[b] ==> a == b
        invariant forall p :: 0 <= p < i ==>
                    var dm := es[p].item.dm;
                    fresh(es[p]) && fresh(dm) && es[p].index == p && !es[p].flag && es[p].owner == this
                    && es[p].item.kind == "snapshot" && dm.doc == doc && dm.mapping == mapping
                    && dm.coords == coords.(snapshot := Some(p)) && dm.template == template
                    && dm.metadata == JObj(map[]) && es[p].item.standards == standards
      {
        var dm := new DataManager(doc, mapping, "snapshot", coords.(snapshot := Some(i)), template, JObj(map[]));
        var it := new Item("snapshot", dm, standards);
        var s := new Snapshot(i, it, this);
        es := es + [s];
        i := i + 1;
      }
      items := es;
    }

    /** `_get_active_index`: the preset's `current_snapshot`, or 0 without
        a preset. */
    method GetActiveIndex() returns (r: Result<Json>)
      modifies PresetDocs()
      ensures preset == null ==> r == Ok(JInt(0))
      ensures preset != null ==>
                (preset.item.dm.doc.root, r) == preset.item.dm.Access(old(preset.item.dm.doc.root), "current_snapshot", JNull)
    {
      if preset == null {
        return Ok(JInt(0));
      }
      r := preset.ActiveSnapshotIndex();
    }

    /** `_set_active_index(k)`, which the `active_index` setter, the
        `active_item` setter and every snapshot's `active` setter call. */
    method SetActiveIndex(k: int) returns (r: Outcome)
      requires Valid()
      modifies this, items, PresetDocs()
      ensures Valid() && items == old(items)
      ensures SetEffect(old(PresetRoot()), old(events), k, r)
    {
      if preset != null {
        r := preset.SetActiveSnapshotIndex(k);
        if r.Fail? {
          return;
        }
      }
      var i := 0;
      while i < |items|
        invariant 0 <= i <= |items|
        invariant forall p :: 0 <= p < i ==> items[p].flag == (items[p].index == k)
        modifies items
      {
        items[i].flag := items[i].index == k;
        i := i + 1;
      }
      events := events + [Change(SnapshotLevel, k)];
      r := Pass;
    }

    /** The `active_item` getter: the snapshot at the position the active
        index names. */
    method ActiveItem() returns (r: Result<Snapshot>)
      modifies PresetDocs()
      ensures preset == null ==> r == (if |items| > 0 then Ok(items[0]) else Err(IndexOutOfRange))
      ensures preset != null ==>
                var (root1, v) := preset.item.dm.Access(old(preset.item.dm.doc.root), "current_snapshot", JNull);
                preset.item.dm.doc.root == root1
                && (v.Err? ==> r == Err(v.error))
                && (v.Ok? && ListIndex(v.value, |items|).Err? ==> r == Err(ListIndex(v.value, |items|).error))
                && (v.Ok? && ListIndex(v.value, |items|).Ok? ==> r == Ok(items[ListIndex(v.value, |items|).value]))
    {
      var v := GetActiveIndex();
      if v.Err? {
        return Err(v.error);
      }
      var p := ListIndex(v.value, |items|);
      if p.Err? {
        return Err(p.error);
      }
      r := Ok(items[p.value]);
    }

    /** The `active_item` setter: the snapshot's position becomes the
        active index; a snapshot not in the collection is refused. */
    method SetActiveItem(s: Snapshot) returns (r: Outcome)
      requires Valid()
      modifies this, items, PresetDocs()
      ensures Valid() && items == old(items)
      ensures s !in items ==> r == Fail(NotMember) && unchanged(this, PresetDocs()) && unchanged(items)
      ensures s in items ==> SetEffect(old(PresetRoot()), old(events), IndexOf(items, s).value, r)
    {
      var p := IndexOf(items, s);
      if p.None? {
        return Fail(NotMember);
      }
      r := SetActiveIndex(p.value);
    }
  }

  /** The `Snapshots` a `Preset.__init__` builds: on the preset's document,
      at the preset's coordinates, with the preset's callbacks, so the
      active snapshot is read from and written to that preset. */
  method SnapshotsOf(preset: Entity, mapping: map<string, map<string, string>>, template: Json, standards: Config)
    returns (s: SnapshotSet)
    ensures fresh(s) && s.preset == preset && s.events == [] && s.Valid() && |s.items| == MaxSnapshots
    ensures s.PresetDocs() == {preset.item.dm.doc}
    ensures forall p :: 0 <= p < |s.items| ==>
              s.items[p].index == p && s.items[p].item.dm.doc == preset.item.dm.doc
              && s.items[p].item.dm.coords == preset.item.dm.coords.(snapshot := Some(p))
  {
    s := new SnapshotSet(preset, preset.item.dm.doc, mapping, template, standards, preset.item.dm.coords);
  }
}
