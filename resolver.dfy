/** The dotted-path resolver of helixapi/utils/data_manager.py.  Every field
    of a setlist, preset or snapshot is found by looking its name up in a
    mapping table, which gives a dotted path such as
    `presets.preset_index.snapshot_snapshot_index.name`; the placeholders in
    the path are replaced by the owning item's coordinates, and the path is
    followed into the shared document.  A preset slot that is still empty is
    filled with a fresh copy of the preset template on the way. */
module Resolver {
  import opened Prelude
  import opened PyStr
  import opened JsonDoc

  /** The setlist, preset and snapshot indexes of an item; `None` where the
      item was not given one (a setlist has no preset index). */
  datatype Coords = Coords(setlist: Option<nat>, preset: Option<nat>, snapshot: Option<nat>)

  const SetlistPlaceholder := "setlist_index"
  const PresetPlaceholder := "preset_index"
  const SnapshotPlaceholder := "snapshot_snapshot_index"

  /** An index as a subscript: `None` stays `None`. */
  function IndexKey(o: Option<nat>): Key {
    match o
    case Some(n) => KInt(n)
    case None => KNone
  }

  /** `str()` of an optional index, as the f-string `f"snapshot{...}"` renders it. */
  function IndexText(o: Option<nat>): string {
    match o
    case Some(n) => NatToString(n)
    case None => "None"
  }

  /** The subscript one path segment stands for. */
  function KeyOf(seg: string, c: Coords): (r: Key)
    ensures Canonical(r)
  {
    if seg == SetlistPlaceholder then IndexKey(c.setlist)
    else if seg == PresetPlaceholder then IndexKey(c.preset)
    else if seg == SnapshotPlaceholder then KStr("snapshot" + IndexText(c.snapshot))
    else KStr(seg)
  }

  /** The subscripts a whole path stands for. */
  function ConcreteKeys(segs: seq<string>, c: Coords): (r: seq<Key>)
    ensures |r| == |segs|
    ensures CanonicalPath(r)
    decreases |segs|
  {
    if segs == [] then [] else [KeyOf(segs[0], c)] + ConcreteKeys(segs[1..], c)
  }

  /** The lazy template fill done before using a `preset_index` segment:
      an empty (falsy) preset slot receives the template. */
  function Fill(node: Json, seg: string, k: Key, template: Json): Result<Json> {
    if seg != PresetPlaceholder then Ok(node)
    else match Child(node, k)
      case Err(e) => Err(e)
      case Ok(x) => if Truthy(x) then Ok(node) else SetChild(node, k, template)
  }

  /** Following `segs` from `node`, writing `v` at the end unless it is
      `None` (`JNull`), and reading the final slot.  Returns the node as
      changed by the walk and the value read, or the error raised; work done
      before an error (a template fill) is kept. */
  function Walk(node: Json, segs: seq<string>, c: Coords, template: Json, v: Json): (Json, Result<Json>)
    requires |segs| >= 1
    decreases |segs|, 1
  {
    match Fill(node, segs[0], KeyOf(segs[0], c), template)
    case Err(e) => (node, Err(e))
    case Ok(node1) => Continue(node1, segs, c, template, v)
  }

  /** The rest of a walk once the first segment's fill is done: write or
      read the last slot, or descend into the next one. */
  function Continue(node1: Json, segs: seq<string>, c: Coords, template: Json, v: Json): (Json, Result<Json>)
    requires |segs| >= 1
    decreases |segs|, 0
  {
    var k := KeyOf(segs[0], c);
    if |segs| == 1 then
      if v != JNull then
        (match SetChild(node1, k, v)
         case Err(e) => (node1, Err(e))
         case Ok(node2) => (node2, Child(node2, k)))
      else (node1, Child(node1, k))
    else
      match Child(node1, k)
      case Err(e) => (node1, Err(e))
      case Ok(child) =>
        var sub := Walk(child, segs[1..], c, template, v);
        (Rebuild(node1, k, sub.0), sub.1)
  }

  /** `node` with the slot `k` replaced by `x` (unchanged if it cannot be). */
  function Rebuild(node: Json, k: Key, x: Json): Json {
    match SetChild(node, k, x)
    case Ok(n) => n
    case Err(_) => node
  }

  /** A walk only ever replaces `node` by a non-empty container. */
  lemma {:induction false} WalkKeepsOrFills(node: Json, segs: seq<string>, c: Coords, template: Json, v: Json)
    requires |segs| >= 1
    ensures var n := Walk(node, segs, c, template, v).0;
            n == node || (Truthy(n) && n.JObj? == node.JObj? && n.JArr? == node.JArr?)
    decreases |segs|
  {
    var k := KeyOf(segs[0], c);
    match Fill(node, segs[0], k, template)
    case Err(_) =>
    case Ok(node1) =>
      FillKeepsOrFills(node, segs[0], k, template);
      ContinueKeepsOrFills(node1, segs, c, template, v);
      var n := Continue(node1, segs, c, template, v).0;
      assert Walk(node, segs, c, template, v).0 == n;
  }

  /** A fill only ever replaces `node` by a non-empty container of the same
      kind. */
  lemma FillKeepsOrFills(node: Json, seg: string, k: Key, template: Json)
    requires Fill(node, seg, k, template).Ok?
    ensures var n := Fill(node, seg, k, template).value;
            n == node || (Truthy(n) && n.JObj? == node.JObj? && n.JArr? == node.JArr?)
  {
  }

  /** The rest of a walk only ever replaces `node1` by a non-empty container
      of the same kind. */
  lemma ContinueKeepsOrFills(node1: Json, segs: seq<string>, c: Coords, template: Json, v: Json)
    requires |segs| >= 1
    ensures var n := Continue(node1, segs, c, template, v).0;
            n == node1 || (Truthy(n) && n.JObj? == node1.JObj? && n.JArr? == node1.JArr?)
  {
  }

  /** The value a walk returns is the value found at the substituted path of
      the document it leaves behind; a walk that writes returns what it wrote. */
  lemma {:induction false} WalkResultAt(node: Json, segs: seq<string>, c: Coords, template: Json, v: Json)
    requires |segs| >= 1
    requires Walk(node, segs, c, template, v).1.Ok?
    ensures At(Walk(node, segs, c, template, v).0, ConcreteKeys(segs, c)) == Walk(node, segs, c, template, v).1
    ensures v != JNull ==> Walk(node, segs, c, template, v).1 == Ok(v)
    decreases |segs|
  {
    var k := KeyOf(segs[0], c);
    var node1 := Fill(node, segs[0], k, template).value;
    var p := ConcreteKeys(segs, c);
    assert p[0] == k && p[1..] == ConcreteKeys(segs[1..], c);
    if |segs| == 1 {
      if v != JNull {
        ChildAfterSetChild(node1, k, v);
      }
    } else {
      var child := Child(node1, k).value;
      var sub := Walk(child, segs[1..], c, template, v);
      WalkResultAt(child, segs[1..], c, template, v);
      SetChildWhereReadable(node1, k, sub.0);
      ChildAfterSetChild(node1, k, sub.0);
    }
  }

  /** Reading a field right after writing a value to it returns that value
      and changes nothing more.  A falsy value written to a preset slot is
      excluded: the next read finds the slot empty and refills it with the
      template. */
  lemma {:induction false} WalkGetAfterSet(node: Json, segs: seq<string>, c: Coords, template: Json, v: Json)
    requires |segs| >= 1 && v != JNull
    requires Truthy(v) || segs[|segs| - 1] != PresetPlaceholder
    requires Walk(node, segs, c, template, v).1.Ok?
    ensures var after := Walk(node, segs, c, template, v).0;
            Walk(after, segs, c, template, JNull) == (after, Ok(v))
    decreases |segs|
  {
    var k := KeyOf(segs[0], c);
    var node1 := Fill(node, segs[0], k, template).value;
    var after := Walk(node, segs, c, template, v).0;
    if |segs| == 1 {
      ChildAfterSetChild(node1, k, v);
      assert Fill(after, segs[0], k, template) == Ok(after);
    } else {
      var child := Child(node1, k).value;
      var sub := Walk(child, segs[1..], c, template, v);
      assert segs[1..][|segs[1..]| - 1] == segs[|segs| - 1];
      WalkGetAfterSet(child, segs[1..], c, template, v);
      WalkKeepsOrFills(child, segs[1..], c, template, v);
      SetChildWhereReadable(node1, k, sub.0);
      ChildAfterSetChild(node1, k, sub.0);
      assert Truthy(sub.0) by {
        WalkResultAt(child, segs[1..], c, template, v);
        if sub.0 == child {
          SubWalkNeedsContainer(child, segs[1..], c, template, v);
        }
      }
      assert Fill(after, segs[0], k, template) == Ok(after);
      SetChildSame(after, k);
    }
  }

  /** A walk that succeeds and goes on below `node` needs `node` to be a
      non-empty container (or it fills one in first). */
  lemma {:induction false} SubWalkNeedsContainer(node: Json, segs: seq<string>, c: Coords, template: Json, v: Json)
    requires |segs| >= 1
    requires Walk(node, segs, c, template, v).1.Ok?
    requires Walk(node, segs, c, template, v).0 == node
    ensures Truthy(node)
  {
    var k := KeyOf(segs[0], c);
    var node1 := Fill(node, segs[0], k, template).value;
    if node1 != node {
      assert Truthy(node1);
    } else {
      assert Child(node1, k).Ok? || (|segs| == 1 && SetChild(node1, k, v).Ok?);
    }
  }

  /** Reading twice is reading once: the first read does whatever template
      fill is needed and the second finds nothing more to do. */
  lemma {:induction false} WalkReadIdempotent(node: Json, segs: seq<string>, c: Coords, template: Json)
    requires |segs| >= 1
    ensures var first := Walk(node, segs, c, template, JNull);
            Walk(first.0, segs, c, template, JNull) == first
    decreases |segs|
  {
    var k := KeyOf(segs[0], c);
    var first := Walk(node, segs, c, template, JNull);
    match Fill(node, segs[0], k, template)
    case Err(e) =>
    case Ok(node1) =>
      FillIdempotent(node, segs[0], k, template);
      if |segs| > 1 {
        match Child(node1, k)
        case Err(_) =>
        case Ok(child) =>
          var sub := Walk(child, segs[1..], c, template, JNull);
          WalkReadIdempotent(child, segs[1..], c, template);
          WalkKeepsOrFills(child, segs[1..], c, template, JNull);
          SetChildWhereReadable(node1, k, sub.0);
          ChildAfterSetChild(node1, k, sub.0);
          assert first == Continue(node1, segs, c, template, JNull);
          assert first == (Rebuild(node1, k, sub.0), sub.1);
          var after := first.0;
          assert Child(after, k) == Ok(sub.0);
          if segs[0] == PresetPlaceholder && !Truthy(sub.0) {
            // the slot still holds the (empty) template it was given
            assert sub.0 == child;
            assert Fill(node1, segs[0], k, template) == Ok(node1) || !Truthy(child);
            FillEmptySlotAgain(node, node1, after, segs[0], k, template, child);
          } else {
            assert Fill(after, segs[0], k, template) == Ok(after);
          }
          SetChildSame(after, k);
      }
  }

  /** Filling twice is filling once. */
  lemma FillIdempotent(node: Json, seg: string, k: Key, template: Json)
    requires Fill(node, seg, k, template).Ok?
    ensures Fill(Fill(node, seg, k, template).value, seg, k, template) == Fill(node, seg, k, template)
  {
    if seg == PresetPlaceholder && !Truthy(Child(node, k).value) {
      ChildAfterSetChild(node, k, template);
      SetChildTwice(node, k, template, template);
      SetChildSame(SetChild(node, k, template).value, k);
    }
  }

  lemma FillEmptySlotAgain(node: Json, node1: Json, after: Json, seg: string, k: Key, template: Json, child: Json)
    requires seg == PresetPlaceholder
    requires Fill(node, seg, k, template) == Ok(node1)
    requires Child(node1, k) == Ok(child) && !Truthy(child)
    requires SetChild(node1, k, child) == Ok(after)
    ensures Fill(after, seg, k, template) == Ok(after)
  {
    SetChildSame(node1, k);
    if !Truthy(Child(node, k).value) {
      ChildAfterSetChild(node, k, template);
    }
    SetChildSame(after, k);
  }

  /** A read through a path without a preset placeholder leaves the
      document exactly as it was. */
  lemma {:induction false} ReadWithoutPlaceholderIsPure(node: Json, segs: seq<string>, c: Coords, template: Json)
    requires |segs| >= 1
    requires forall j :: 0 <= j < |segs| ==> segs[j] != PresetPlaceholder
    ensures Walk(node, segs, c, template, JNull).0 == node
    decreases |segs|
  {
    var k := KeyOf(segs[0], c);
    if |segs| > 1 {
      match Child(node, k)
      case Err(_) =>
      case Ok(child) =>
        ReadWithoutPlaceholderIsPure(child, segs[1..], c, template);
        SetChildSame(node, k);
    }
  }

  /** Reading an empty preset slot gives a copy of the template and stores
      it there. */
  lemma FillOnRead(node: Json, c: Coords, template: Json)
    requires Child(node, IndexKey(c.preset)).Ok?
    requires !Truthy(Child(node, IndexKey(c.preset)).value)
    ensures Walk(node, [PresetPlaceholder], c, template, JNull)
            == (SetChild(node, IndexKey(c.preset), template).value, Ok(template))
  {
    ChildAfterSetChild(node, IndexKey(c.preset), template);
  }

  /** A walk changes only the locations along its own substituted path and
      the preset slots it fills: every location that parts from that path
      keeps its value, provided each preset slot passed before the parting
      already holds something (so no fill happens there). */
  lemma {:induction false} WalkFrame(node: Json, segs: seq<string>, c: Coords, template: Json, v: Json,
                                      q: seq<Key>, i: nat)
    requires |segs| >= 1 && CanonicalPath(q)
    requires i < |segs| && i < |q| && ConcreteKeys(segs, c)[i] != q[i]
    requires ConcreteKeys(segs, c)[..i] == q[..i]
    requires forall j :: 0 <= j < i && segs[j] == PresetPlaceholder ==>
               At(node, q[..j + 1]).Ok? && Truthy(At(node, q[..j + 1]).value)
    ensures At(Walk(node, segs, c, template, v).0, q) == At(node, q)
    decreases |segs|
  {
    var k := KeyOf(segs[0], c);
    var p := ConcreteKeys(segs, c);
    assert p[0] == k && p[1..] == ConcreteKeys(segs[1..], c);
    var after := Walk(node, segs, c, template, v).0;
    if i == 0 {
      WalkFrameAtTop(node, segs, c, template, v, q);
    } else {
      assert k == q[0] by { assert p[..i][0] == q[..i][0]; }
      FirstSlotKept(node, segs, c, template, q, i);
      match Child(node, k)
      case Err(_) =>
        assert after == Continue(node, segs, c, template, v).0;
      case Ok(child) =>
        var sub := Walk(child, segs[1..], c, template, v);
        DescendThrough(node, segs, c, template, v, child);
        TailParts(p, q, i);
        FilledPrefixTail(node, child, segs, q, i);
        WalkFrame(child, segs[1..], c, template, v, q[1..], i - 1);
        AtThroughChild(after, sub.0, q);
        AtThroughChild(node, child, q);
    }
  }

  /** A location whose first key is not the walk's first key keeps its value. */
  lemma WalkFrameAtTop(node: Json, segs: seq<string>, c: Coords, template: Json, v: Json, q: seq<Key>)
    requires |segs| >= 1 && CanonicalPath(q) && |q| >= 1 && q[0] != KeyOf(segs[0], c)
    ensures At(Walk(node, segs, c, template, v).0, q) == At(node, q)
  {
    var after := Walk(node, segs, c, template, v).0;
    WalkSlotFrame(node, segs, c, template, v, q[0]);
    assert At(after, q) == (match Child(after, q[0]) case Err(e) => Err(e) case Ok(x) => At(x, q[1..]));
  }

  /** A walk that goes on past its first segment, when that segment's fill
      changes nothing: the child it descends into is replaced by the result
      of the rest of the walk. */
  lemma DescendThrough(node: Json, segs: seq<string>, c: Coords, template: Json, v: Json, child: Json)
    requires |segs| >= 2
    requires Fill(node, segs[0], KeyOf(segs[0], c), template) == Ok(node)
    requires Child(node, KeyOf(segs[0], c)) == Ok(child)
    ensures Child(Walk(node, segs, c, template, v).0, KeyOf(segs[0], c)) == Ok(Walk(child, segs[1..], c, template, v).0)
  {
    var k := KeyOf(segs[0], c);
    var sub := Walk(child, segs[1..], c, template, v);
    assert Walk(node, segs, c, template, v).0 == Rebuild(node, k, sub.0);
    SetChildWhereReadable(node, k, sub.0);
    ChildAfterSetChild(node, k, sub.0);
  }

  /** The first segment's fill changes nothing when it is no preset slot,
      or a preset slot that already holds something. */
  lemma FirstSlotKept(node: Json, segs: seq<string>, c: Coords, template: Json, q: seq<Key>, i: nat)
    requires 0 < i < |segs| && i < |q| && KeyOf(segs[0], c) == q[0]
    requires forall j :: 0 <= j < i && segs[j] == PresetPlaceholder ==>
               At(node, q[..j + 1]).Ok? && Truthy(At(node, q[..j + 1]).value)
    ensures Fill(node, segs[0], KeyOf(segs[0], c), template) == Ok(node)
  {
    if segs[0] == PresetPlaceholder {
      AtOneKey(node, q);
    }
  }

  /** The filled-slot condition of a frame, moved one level down. */
  lemma FilledPrefixTail(node: Json, child: Json, segs: seq<string>, q: seq<Key>, i: nat)
    requires 0 < i <= |segs| && i <= |q| && Child(node, q[0]) == Ok(child)
    requires forall j :: 0 <= j < i && segs[j] == PresetPlaceholder ==>
               At(node, q[..j + 1]).Ok? && Truthy(At(node, q[..j + 1]).value)
    ensures forall j :: 0 <= j < i - 1 && segs[1..][j] == PresetPlaceholder ==>
              At(child, q[1..][..j + 1]).Ok? && Truthy(At(child, q[1..][..j + 1]).value)
  {
    forall j | 0 <= j < i - 1 && segs[1..][j] == PresetPlaceholder
      ensures At(child, q[1..][..j + 1]).Ok? && Truthy(At(child, q[1..][..j + 1]).value)
    {
      assert segs[j + 1] == PresetPlaceholder;
      AtPrefixStep(node, child, q, j);
    }
  }

  /** Reading a path through the child at its first key. */
  lemma AtThroughChild(n: Json, x: Json, q: seq<Key>)
    requires |q| >= 1 && Child(n, q[0]) == Ok(x)
    ensures At(n, q) == At(x, q[1..])
  {
  }

  /** Writing a preset's name leaves the fields beside it alone, once its
      slot holds a preset. */
  lemma PresetRenameKeepsAuthor(node: Json, c: Coords, template: Json, v: Json, p: nat)
    requires c.preset == Some(p)
    requires At(node, [KStr("presets"), KInt(p)]).Ok? && Truthy(At(node, [KStr("presets"), KInt(p)]).value)
    ensures var q := [KStr("presets"), KInt(p), KStr("meta"), KStr("author")];
            At(Walk(node, ["presets", PresetPlaceholder, "meta", "name"], c, template, v).0, q) == At(node, q)
  {
    var segs := ["presets", PresetPlaceholder, "meta", "name"];
    var q := [KStr("presets"), KInt(p), KStr("meta"), KStr("author")];
    var keys := ConcreteKeys(segs, c);
    assert keys == [KStr("presets"), KInt(p), KStr("meta"), KStr("name")] by {
      assert segs[1..] == [PresetPlaceholder, "meta", "name"];
      assert segs[1..][1..] == ["meta", "name"];
      assert segs[1..][1..][1..] == ["name"];
      assert KeyOf("presets", c) == KStr("presets");
      assert KeyOf("meta", c) == KStr("meta");
      assert KeyOf("name", c) == KStr("name");
      assert ConcreteKeys(["name"], c) == [KStr("name")];
      assert ConcreteKeys(["meta", "name"], c) == [KStr("meta"), KStr("name")];
      assert ConcreteKeys([PresetPlaceholder, "meta", "name"], c) == [KInt(p), KStr("meta"), KStr("name")];
    }
    assert q[..2] == [KStr("presets"), KInt(p)];
    assert keys[..3] == q[..3];
    WalkFrame(node, segs, c, template, v, q, 3);
  }

  /** The value at a one-key prefix is the child at that key. */
  lemma AtOneKey(node: Json, q: seq<Key>)
    requires |q| >= 1
    ensures At(node, q[..1]) == Child(node, q[0])
  {
    assert q[..1][1..] == [];
  }

  /** A prefix of a path read from `node` is the shorter prefix of the rest
      of the path read from the child at its first key. */
  lemma AtPrefixStep(node: Json, child: Json, q: seq<Key>, j: nat)
    requires j + 2 <= |q| && Child(node, q[0]) == Ok(child)
    ensures At(node, q[..j + 2]) == At(child, q[1..][..j + 1])
  {
    assert q[..j + 2][0] == q[0];
    assert q[..j + 2][1..] == q[1..][..j + 1];
  }

  lemma TailParts(p: seq<Key>, q: seq<Key>, i: nat)
    requires 0 < i < |p| && i < |q| && p[i] != q[i] && p[..i] == q[..i]
    ensures p[1..][i-1] != q[1..][i-1] && p[1..][..i-1] == q[1..][..i-1]
  {
    assert p[1..][..i-1] == p[..i][1..];
    assert q[1..][..i-1] == q[..i][1..];
  }

  /** A walk changes no slot of `node` but the one its first segment names. */
  lemma WalkSlotFrame(node: Json, segs: seq<string>, c: Coords, template: Json, v: Json, k2: Key)
    requires |segs| >= 1 && Canonical(k2) && k2 != KeyOf(segs[0], c)
    ensures Child(Walk(node, segs, c, template, v).0, k2) == Child(node, k2)
  {
    var k := KeyOf(segs[0], c);
    var after := Walk(node, segs, c, template, v).0;
    match Fill(node, segs[0], k, template)
    case Err(_) =>
      assert after == node;
    case Ok(node1) =>
      assert after == Continue(node1, segs, c, template, v).0;
      if node1 != node {
        ChildOtherSlot(node, k, template, k2);
      }
      ContinueSlotFrame(node1, segs, c, template, v, k2);
  }

  /** The rest of a walk changes no slot of `node1` but the one its first
      segment names. */
  lemma ContinueSlotFrame(node1: Json, segs: seq<string>, c: Coords, template: Json, v: Json, k2: Key)
    requires |segs| >= 1 && Canonical(k2) && k2 != KeyOf(segs[0], c)
    ensures Child(Continue(node1, segs, c, template, v).0, k2) == Child(node1, k2)
  {
    var k := KeyOf(segs[0], c);
    var after := Continue(node1, segs, c, template, v).0;
    if |segs| == 1 {
      if v != JNull && SetChild(node1, k, v).Ok? {
        assert after == SetChild(node1, k, v).value;
        ChildOtherSlot(node1, k, v, k2);
      } else {
        assert after == node1;
      }
    } else {
      match Child(node1, k)
      case Err(_) =>
        assert after == node1;
      case Ok(child) =>
        var sub := Walk(child, segs[1..], c, template, v);
        assert after == Rebuild(node1, k, sub.0);
        if SetChild(node1, k, sub.0).Ok? {
          ChildOtherSlot(node1, k, sub.0, k2);
        }
    }
  }

  /** The document all items of one setlist (or one bundle) share. */
  class Document {
    var root: Json

    constructor(root: Json)
      ensures this.root == root
    {
      this.root := root;
    }
  }

  /** An item's view of the shared document (`DataManager`): the mapping
      table, the item's coordinates, the preset template and the item's
      metadata.  The mapping table and the template are loaded from files
      in the source and are parameters here. */
  class DataManager {
    const doc: Document
    const mapping: map<string, map<string, string>>
    const kind: string
    const coords: Coords
    const template: Json
    var metadata: Json

    constructor(doc: Document, mapping: map<string, map<string, string>>, kind: string,
                coords: Coords, template: Json, metadata: Json)
      ensures this.doc == doc && this.mapping == mapping && this.kind == kind
      ensures this.coords == coords && this.template == template && this.metadata == metadata
    {
      this.doc := doc;
      this.mapping := mapping;
      this.kind := kind;
      this.coords := coords;
      this.template := template;
      this.metadata := metadata;
    }

    /** `self.mapping[self.mapping_key][key]`. */
    function PathOf(key: string): (r: Result<string>)
      ensures r.Ok? <==> kind in mapping && key in mapping[kind]
      ensures r.Err? ==> r.error == UnknownField
    {
      if kind in mapping && key in mapping[kind] then Ok(mapping[kind][key]) else Err(UnknownField)
    }

    /** The document and result of accessing field `key` (writing `v` unless
      it is `JNull`): an unknown field fails before the document is touched. */
    function Access(root: Json, key: string, v: Json): (r: (Json, Result<Json>))
      ensures PathOf(key).Err? ==> r == (root, Err(UnknownField))
    {
      match PathOf(key)
      case Err(e) => (root, Err(e))
      case Ok(path) => Walk(root, Split(path, '.'), coords, template, v)
    }

    /** `_navigate_path`. */
    method Navigate(path: string, value: Json) returns (r: Result<Json>)
      modifies doc
      ensures (doc.root, r) == Walk(old(doc.root), Split(path, '.'), coords, template, value)
    {
      var keys := Split(path, '.');
      ghost var target := Walk(doc.root, keys, coords, template, value);
      var data := doc.root;
      var at: seq<Key> := [];  // where `data` sits inside the document
      var i := 0;
      while true
        invariant 0 <= i < |keys|
        invariant At(doc.root, at) == Ok(data)
        invariant target == Plug(doc.root, at, Walk(data, keys[i..], coords, template, value))
        decreases |keys| - i
      {
        var seg := keys[i];
        var k := KeyOf(seg, coords);
        ghost var rest := keys[i..];
        WalkFillStep(doc.root, at, data, rest, coords, template, value);
        var filled := FillSlot(at, data, seg);
        if filled.Err? {
          return Err(filled.error);
        }
        data := filled.value;
        if i == |keys| - 1 {
          WalkLastStep(doc.root, at, data, rest, coords, template, value);
          r := WriteLast(at, data, k, value);
          return;
        }
        WalkDescendStep(doc.root, at, data, rest, coords, template, value);
        var next := Child(data, k);
        if next.Err? {
          return Err(next.error);
        }
        assert rest[1..] == keys[i + 1..];
        at := at + [k];
        data := next.value;
        i := i + 1;
      }
    }

    /** The `preset_index` case of `_navigate_path`: an empty slot of the
        node at `at` receives the preset template, written back into the
        document. */
    method FillSlot(at: seq<Key>, data: Json, seg: string) returns (d: Result<Json>)
      requires At(doc.root, at) == Ok(data)
      modifies doc
      ensures d == Fill(data, seg, KeyOf(seg, coords), template)
      ensures d.Err? ==> doc.root == old(doc.root)
      ensures d.Ok? ==> Put(old(doc.root), at, d.value).Ok? && doc.root == Put(old(doc.root), at, d.value).value
    {
      PutSame(doc.root, at);
      if seg != PresetPlaceholder {
        return Ok(data);
      }
      var k := KeyOf(seg, coords);
      var slot := Child(data, k);
      if slot.Err? {
        return Err(slot.error);
      }
      if Truthy(slot.value) {
        return Ok(data);
      }
      SetChildWhereReadable(data, k, template);
      var filledNode := SetChild(data, k, template).value;
      AtOkPutOk(doc.root, at, filledNode);
      doc.root := Put(doc.root, at, filledNode).value;
      d := Ok(filledNode);
    }

    /** The last segment of `_navigate_path`: the value, unless it is
        `None`, is written into slot `k` of the node at `at`, and the slot
        is read. */
    method WriteLast(at: seq<Key>, data: Json, k: Key, value: Json) returns (r: Result<Json>)
      requires At(doc.root, at) == Ok(data)
      modifies doc
      ensures var w := SetChild(data, k, value);
              && (value == JNull ==> doc.root == old(doc.root) && r == Child(data, k))
              && (value != JNull && w.Err? ==> doc.root == old(doc.root) && r == Err(w.error))
              && (value != JNull && w.Ok? ==>
                    Put(old(doc.root), at, w.value).Ok? && doc.root == Put(old(doc.root), at, w.value).value
                    && r == Child(w.value, k))
    {
      if value == JNull {
        return Child(data, k);
      }
      var w := SetChild(data, k, value);
      if w.Err? {
        return Err(w.error);
      }
      AtOkPutOk(doc.root, at, w.value);
      doc.root := Put(doc.root, at, w.value).value;
      r := Child(w.value, k);
    }

    method GetData(key: string) returns (r: Result<Json>)
      modifies doc
      ensures (doc.root, r) == Access(old(doc.root), key, JNull)
    {
      var path := PathOf(key);
      if path.Err? {
        return Err(path.error);
      }
      r := Navigate(path.value, JNull);
    }

    method SetData(key: string, value: Json) returns (r: Outcome)
      modifies doc
      ensures var a := Access(old(doc.root), key, value);
              doc.root == a.0 && (r.Fail? <==> a.1.Err?) && (r.Fail? ==> r.error == a.1.error)
    {
      var path := PathOf(key);
      if path.Err? {
        return Fail(path.error);
      }
      var res := Navigate(path.value, value);
      r := if res.Err? then Fail(res.error) else Pass;
    }

    /** Reading a field twice is reading it once. */
    lemma ReadIdempotent(root: Json, key: string)
      ensures var first := Access(root, key, JNull);
              Access(first.0, key, JNull) == first
    {
      if PathOf(key).Ok? {
        WalkReadIdempotent(root, Split(PathOf(key).value, '.'), coords, template);
      }
    }

    /** A field written with a value other than `None` reads back as that
        value, and the read changes nothing (with the preset-slot exception
        of `WalkGetAfterSet`). */
    lemma GetAfterSet(root: Json, key: string, v: Json)
      requires v != JNull && Access(root, key, v).1.Ok?
      requires var segs := Split(PathOf(key).value, '.');
               Truthy(v) || segs[|segs| - 1] != PresetPlaceholder
      ensures var after := Access(root, key, v).0;
              Access(after, key, JNull) == (after, Ok(v))
    {
      var segs := Split(PathOf(key).value, '.');
      WalkGetAfterSet(root, segs, coords, template, v);
    }
  }

  /** A completed sub-walk at `at` seen from the root. */
  function Plug(root: Json, at: seq<Key>, sub: (Json, Result<Json>)): (Json, Result<Json>) {
    (match Put(root, at, sub.0) case Ok(r) => r case Err(_) => root, sub.1)
  }

  /** The first step of a walk at `at`: the fill of the first segment
      either fails with the document as it was, or is written back at `at`
      and the walk goes on from the filled node. */
  lemma WalkFillStep(root: Json, at: seq<Key>, data: Json, rest: seq<string>, c: Coords, template: Json, v: Json)
    requires |rest| >= 1 && At(root, at) == Ok(data)
    ensures var f := Fill(data, rest[0], KeyOf(rest[0], c), template);
            && (f.Err? ==> Plug(root, at, Walk(data, rest, c, template, v)) == (root, Err(f.error)))
            && (f.Ok? ==>
                  && Put(root, at, f.value).Ok? && At(Put(root, at, f.value).value, at) == Ok(f.value)
                  && Plug(root, at, Walk(data, rest, c, template, v))
                     == Plug(Put(root, at, f.value).value, at, Continue(f.value, rest, c, template, v)))
  {
    var f := Fill(data, rest[0], KeyOf(rest[0], c), template);
    PutSame(root, at);
    if f.Ok? {
      AtOkPutOk(root, at, f.value);
      AtAfterPut(root, at, f.value);
      PlugAfterWrite(root, at, f.value, Continue(f.value, rest, c, template, v));
    }
  }

  /** The last segment of a walk: the value is written into the slot
      unless it is `None`, and the slot is read. */
  lemma WalkLastStep(root: Json, at: seq<Key>, data: Json, rest: seq<string>, c: Coords, template: Json, v: Json)
    requires |rest| == 1 && At(root, at) == Ok(data)
    ensures var k := KeyOf(rest[0], c);
            var w := SetChild(data, k, v);
            var sub := Plug(root, at, Continue(data, rest, c, template, v));
            && (v == JNull ==> sub == (root, Child(data, k)))
            && (v != JNull && w.Err? ==> sub == (root, Err(w.error)))
            && (v != JNull && w.Ok? ==> Put(root, at, w.value).Ok? && sub == (Put(root, at, w.value).value, Child(w.value, k)))
  {
    var k := KeyOf(rest[0], c);
    PutSame(root, at);
    if v != JNull && SetChild(data, k, v).Ok? {
      AtOkPutOk(root, at, SetChild(data, k, v).value);
    }
  }

  /** A segment before the last: the walk descends into the slot, which
      sits at `at + [k]`, or fails with the document as it was. */
  lemma WalkDescendStep(root: Json, at: seq<Key>, data: Json, rest: seq<string>, c: Coords, template: Json, v: Json)
    requires |rest| >= 2 && At(root, at) == Ok(data)
    ensures var k := KeyOf(rest[0], c);
            var next := Child(data, k);
            var sub := Plug(root, at, Continue(data, rest, c, template, v));
            && (next.Err? ==> sub == (root, Err(next.error)))
            && (next.Ok? ==>
                  At(root, at + [k]) == Ok(next.value)
                  && sub == Plug(root, at + [k], Walk(next.value, rest[1..], c, template, v)))
  {
    var k := KeyOf(rest[0], c);
    PutSame(root, at);
    AtSnoc(root, at, k);
    if Child(data, k).Ok? {
      DescendStep(root, at, data, k, Walk(Child(data, k).value, rest[1..], c, template, v).0);
    }
  }

  lemma PlugAfterWrite(root: Json, at: seq<Key>, data: Json, sub: (Json, Result<Json>))
    requires Put(root, at, data).Ok?
    ensures Plug(Put(root, at, data).value, at, sub).0 == Plug(root, at, sub).0
  {
    PutTwice(root, at, data, sub.0);
  }

  lemma DescendStep(root: Json, at: seq<Key>, data: Json, k: Key, x: Json)
    requires At(root, at) == Ok(data) && Child(data, k).Ok?
    ensures Plug(root, at, (Rebuild(data, k, x), Err(MissingKey))).0
            == Plug(root, at + [k], (x, Err(MissingKey))).0
  {
    PutSnoc(root, at, k, x);
    SetChildWhereReadable(data, k, x);
  }
}
