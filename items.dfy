/** What every setlist, preset and snapshot shares (helixapi/utils/
    item_base.py): a view of the shared document through its own
    `DataManager`, the name setter with its length limit, and import,
    export and standardisation of the item. */
module Items {
  import opened Prelude
  import opened PyStr
  import opened JsonDoc
  import opened LedColors
  import opened Resolver
  import opened Files
  import opened Standards

  /** The longest name the Helix accepts. */
  const MaxNameLength := 16

  /** `str(value)`, as an f-string renders a field value; containers and
      floats are not rendered by the model. */
  function Display(j: Json): (r: Result<string>)
    ensures j.JStr? ==> r == Ok(j.s)
    ensures j.JColor? ==> r == Ok("LEDColor." + MemberName(j.color))
    ensures r.Err? <==> j.JArr? || j.JObj? || j.JFloat?
  {
    match j
    case JNull => Ok("None")
    case JBool(b) => Ok(if b then "True" else "False")
    case JInt(i) => Ok(IntToString(i))
    case JStr(s) => Ok(s)
    case JColor(c) => Ok("LEDColor." + MemberName(c))
    case _ => Err(NotDisplayable)
  }

  /** Whether any replacement entry has a pattern, so that `re.sub` runs. */
  predicate HasPattern(reps: seq<(string, seq<string>)>) {
    exists e :: 0 <= e < |reps| && reps[e].1 != []
  }

  /** `Standards.apply` on whatever the name field holds.  A string is
      standardised; any other value goes through untouched unless a
      pattern makes `re.sub` raise (`TypeError`), or a known casing calls a
      string method it lacks (`AttributeError`). */
  function StandardizedValue(cfg: Config, v: Json, itemType: string): (r: Result<Json>)
    ensures v.JStr? ==> r == Ok(JStr(Standardized(cfg, v.s, itemType)))
    ensures !v.JStr? && r.Ok? ==> r.value == v
    ensures !v.JStr? ==>
              (r.Ok? <==> !HasPattern(RulesFor(cfg, itemType).replacements)
                          && Lower(RulesFor(cfg, itemType).casing) !in {"uppercase", "lowercase", "titlecase"})
    ensures !v.JStr? && HasPattern(RulesFor(cfg, itemType).replacements) ==> r == Err(NotAString)
  {
    var rules := RulesFor(cfg, itemType);
    if v.JStr? then Ok(JStr(Standardized(cfg, v.s, itemType)))
    else if HasPattern(rules.replacements) then Err(NotAString)
    else if Lower(rules.casing) in {"uppercase", "lowercase", "titlecase"} then Err(AttributeMissing)
    else Ok(v)
  }

  /** A kind without standards passes every name value through. */
  lemma NoStandardsPassThrough(cfg: Config, v: Json, itemType: string)
    requires itemType !in cfg
    ensures StandardizedValue(cfg, v, itemType) == Ok(v)
  {
    if v.JStr? {
      NoRulesNoChange(cfg, v.s, itemType);
    } else {
      assert RulesFor(cfg, itemType) == Rules("", []);
      assert Lower("") == "";
    }
  }

  /** `ItemBase`: the item's kind (its class name in lower case), its view
      of the document, and the naming standards in force. */
  class Item {
    const kind: string
    const dm: DataManager
    const standards: Config

    constructor(kind: string, dm: DataManager, standards: Config)
      ensures this.kind == kind && this.dm == dm && this.standards == standards
    {
      this.kind := kind;
      this.dm := dm;
      this.standards := standards;
    }

    /** The `name` setter of `Setlist`, `Preset` and `Snapshot`: a name
        longer than 16 characters is refused before the document is
        touched. */
    method SetName(value: string) returns (r: Outcome)
      modifies dm.doc
      ensures |value| > MaxNameLength ==> r == Fail(NameTooLong) && dm.doc.root == old(dm.doc.root)
      ensures |value| <= MaxNameLength ==>
                var a := dm.Access(old(dm.doc.root), "name", JStr(value));
                dm.doc.root == a.0 && (r.Pass? <==> a.1.Ok?)
    {
      if |value| > MaxNameLength {
        return Fail(NameTooLong);
      }
      r := dm.SetData("name", JStr(value));
    }

    /** `_export_file`: the kind must be a file type and the path given; the
        item's `root` field and metadata go to `Files._export_file`, which
        may update the metadata in place. */
    method ExportFile(disk: Disk, c: Codec, path: string, now: int) returns (r: Outcome)
      modifies disk, dm, dm.doc
      ensures !ExistsByName(kind) ==> r == Fail(UnsupportedKind) && unchanged(disk, dm, dm.doc)
      ensures ExistsByName(kind) && path == "" ==> r == Fail(PathNotSpecified) && unchanged(disk, dm, dm.doc)
      ensures ExistsByName(kind) && path != "" ==>
                var a := dm.Access(old(dm.doc.root), "root", JNull);
                dm.doc.root == a.0
                && (a.1.Err? ==> r == Fail(a.1.error) && disk.fs == old(disk.fs) && dm.metadata == old(dm.metadata))
                && (a.1.Ok? ==>
                      var e := Files.ExportFile(old(disk.fs), c, path, a.1.value, old(dm.metadata), now);
                      r == e.outcome && disk.fs == e.fs && dm.metadata == e.metadata)
    {
      if !ExistsByName(kind) {
        return Fail(UnsupportedKind);
      }
      if path == "" {
        return Fail(PathNotSpecified);
      }
      ghost var a := dm.Access(dm.doc.root, "root", JNull);
      var data := dm.GetData("root");
      assert data == a.1;
      if data.Err? {
        return Fail(data.error);
      }
      var e := Files.ExportFile(disk.fs, c, path, data.value, dm.metadata, now);
      disk.fs := e.fs;
      dm.metadata := e.metadata;
      r := e.outcome;
    }

    /** The file `_import_file` reads: the given path, or the template of
        the item's kind when there is none. */
    function Source(path: string): Result<string> {
      if path == "" then TemplateByTypeName(kind) else Ok(path)
    }

    /** `_import_file`: the loaded content replaces the item's `root` field
        (setlists and presets only) and the loaded header replaces its
        metadata; any failure leaves the metadata as it was. */
    method ImportFile(disk: Disk, c: Codec, path: string) returns (r: Outcome)
      modifies dm, dm.doc
      ensures !ExistsByName(kind) ==> r == Fail(UnsupportedKind) && unchanged(dm, dm.doc)
      ensures ExistsByName(kind) ==>
                var loaded := Files.ImportFile(disk.fs, c, Source(path).value);
                && (loaded.Err? ==> r == Fail(loaded.error) && unchanged(dm, dm.doc))
                && (loaded.Ok? && kind !in {"setlist", "preset"} ==>
                      r == Fail(UnsupportedFileType) && unchanged(dm, dm.doc))
                && (loaded.Ok? && kind in {"setlist", "preset"} ==>
                      var a := dm.Access(old(dm.doc.root), "root", loaded.value.0);
                      dm.doc.root == a.0
                      && (a.1.Err? ==> r == Fail(a.1.error) && dm.metadata == old(dm.metadata))
                      && (a.1.Ok? ==> r == Pass && dm.metadata == loaded.value.1))
      ensures r.Pass? ==>
                && Source(path).Ok? && Files.ImportFile(disk.fs, c, Source(path).value).Ok?
                && dm.metadata == Files.ImportFile(disk.fs, c, Source(path).value).value.1
    {
      if !ExistsByName(kind) {
        return Fail(UnsupportedKind);
      }
      var source := Source(path).value;
      var loaded := Files.ImportFile(disk.fs, c, source);
      if loaded.Err? {
        return Fail(loaded.error);
      }
      var (data, metadata) := loaded.value;
      if kind !in {"setlist", "preset"} {
        return Fail(UnsupportedFileType);
      }
      r := dm.SetData("root", data);
      if r.Fail? {
        return;
      }
      dm.metadata := metadata;
    }

    /** `standardize`: the name is read, standardised for the item's kind
        and written back, without the length limit of the name setter. */
    method Standardize() returns (r: Outcome)
      modifies dm.doc
      ensures var (root1, name) := dm.Access(old(dm.doc.root), "name", JNull);
              && (name.Err? ==> r == Fail(name.error) && dm.doc.root == root1)
              && (name.Ok? ==>
                    var s := StandardizedValue(standards, name.value, kind);
                    && (s.Err? ==> r == Fail(s.error) && dm.doc.root == root1)
                    && (s.Ok? ==>
                          var a := dm.Access(root1, "name", s.value);
                          dm.doc.root == a.0 && (r.Pass? <==> a.1.Ok?)))
    {
      var name := dm.GetData("name");
      if name.Err? {
        return Fail(name.error);
      }
      var value := name.value;
      if value.JStr? {
        var standardized := Apply(standards, value.s, kind);
        value := JStr(standardized);
      } else {
        var rules := RulesFor(standards, kind);
        if HasPattern(rules.replacements) {
          return Fail(NotAString);
        }
        if Lower(rules.casing) in {"uppercase", "lowercase", "titlecase"} {
          return Fail(AttributeMissing);
        }
      }
      r := dm.SetData("name", value);
    }
  }
}
