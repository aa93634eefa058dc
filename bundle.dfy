/** The bundle file (helixapi/bundle.py): the whole document with its
    header, imported from and exported to `.hlb` files. */
module Bundles {
  import opened Prelude
  import opened JsonDoc
  import opened Files

  /** The file `import_bundle` reads: the bundle template for no path, the
      path itself for a bundle path, nothing otherwise. */
  function ImportSource(path: string): (r: Option<string>)
    ensures path == "" ==> r == Some(TemplateFile(Bundle))
    ensures path != "" ==> (r.Some? <==> GetType(path) == Some(Bundle)) && (r.Some? ==> r.value == path)
  {
    if path == "" then Some(TemplateFile(Bundle))
    else if GetType(path) == Some(Bundle) then Some(path)
    else None
  }

  /** A bundle: its content and header, whether it was given the callback
      that rebuilds the setlists, and the contents passed to that callback
      so far. */
  class Bundle {
    var data: Json
    var metadata: Json
    const notify: bool
    var reloads: seq<Json>

    /** The state before `__init__` runs `import_bundle`. */
    constructor(notify: bool)
      ensures this.notify == notify && data == JNull && metadata == JNull && reloads == []
    {
      this.notify := notify;
      data := JNull;
      metadata := JNull;
      reloads := [];
    }

    /** `import_bundle`: a path that is neither empty nor a bundle is
        refused; otherwise the file is imported, its content and header
        replace the bundle's, and the new content goes to the callback. */
    method Import(disk: Disk, c: Codec, path: string) returns (r: Outcome)
      modifies this
      ensures ImportSource(path).None? ==> r == Fail(NotABundlePath) && unchanged(this)
      ensures ImportSource(path).Some? ==>
                var loaded := Files.ImportFile(disk.fs, c, ImportSource(path).value);
                && (loaded.Err? ==> r == Fail(loaded.error) && unchanged(this))
                && (loaded.Ok? ==>
                      r == Pass && data == loaded.value.0 && metadata == loaded.value.1
                      && reloads == old(reloads) + (if notify then [data] else []))
    {
      var source := ImportSource(path);
      if source.None? {
        return Fail(NotABundlePath);
      }
      var loaded := Files.ImportFile(disk.fs, c, source.value);
      if loaded.Err? {
        return Fail(loaded.error);
      }
      data, metadata := loaded.value.0, loaded.value.1;
      if notify {
        reloads := reloads + [data];
      }
      r := Pass;
    }

    /** `export_bundle`: the path must be given and be a bundle path; the
        content and header go to `Files._export_file`, which may update
        the header in place. */
    method Export(disk: Disk, c: Codec, path: string, now: int) returns (r: Outcome)
      modifies this, disk
      ensures data == old(data) && reloads == old(reloads)
      ensures path == "" ==> r == Fail(PathNotSpecified) && unchanged(this, disk)
      ensures path != "" && GetType(path) != Some(Bundle) ==> r == Fail(NotABundlePath) && unchanged(this, disk)
      ensures path != "" && GetType(path) == Some(Bundle) ==>
                var e := Files.ExportFile(old(disk.fs), c, path, data, old(metadata), now);
                r == e.outcome && disk.fs == e.fs && metadata == e.metadata
    {
      if path == "" {
        return Fail(PathNotSpecified);
      }
      if GetType(path) != Some(Bundle) {
        return Fail(NotABundlePath);
      }
      var e := Files.ExportFile(disk.fs, c, path, data, metadata, now);
      disk.fs := e.fs;
      metadata := e.metadata;
      r := e.outcome;
    }

    /** The `name` getter, `metadata["meta"]["name"]`: it succeeds exactly
        when the header is a dict whose `meta` is a dict holding `name`. */
    function Name(): (r: Result<Json>)
      reads this
      ensures r.Ok? <==> metadata.JObj? && "meta" in metadata.fields && metadata.fields["meta"].JObj?
                         && "name" in metadata.fields["meta"].fields
      ensures r.Ok? ==> r.value == metadata.fields["meta"].fields["name"]
      ensures metadata.JObj? && "meta" !in metadata.fields ==> r == Err(MissingKey)
      ensures !metadata.JObj? ==> r == Err(NotSubscriptable)
    {
      At(metadata, MetaName)
    }

    /** The `name` setter as the source has it: it writes `meta.name` of the
        content, which the getter and the exported header do not read. */
    method SetNameAsWritten(v: Json) returns (r: Outcome)
      modifies this
      ensures metadata == old(metadata) && reloads == old(reloads)
      ensures Put(old(data), MetaName, v).Err? ==> r == Fail(Put(old(data), MetaName, v).error) && data == old(data)
      ensures Put(old(data), MetaName, v).Ok? ==> r == Pass && data == Put(old(data), MetaName, v).value
    {
      var w := Put(data, MetaName, v);
      if w.Err? {
        return Fail(w.error);
      }
      data := w.value;
      r := Pass;
    }

    /** The `name` setter writing the location the getter reads: a name
        that is set reads back. */
    method SetName(v: Json) returns (r: Outcome)
      modifies this
      ensures data == old(data) && reloads == old(reloads)
      ensures Put(old(metadata), MetaName, v).Err? ==> r == Fail(Put(old(metadata), MetaName, v).error) && metadata == old(metadata)
      ensures Put(old(metadata), MetaName, v).Ok? ==> r == Pass && metadata == Put(old(metadata), MetaName, v).value
      ensures r.Pass? ==> Name() == Ok(v)
    {
      var w := Put(metadata, MetaName, v);
      if w.Err? {
        return Fail(w.error);
      }
      AtAfterPut(metadata, MetaName, v);
      metadata := w.value;
      r := Pass;
    }
  }

  /** A bundle whose content and header both carry a name. */
  function Named(name: string): Json {
    JObj(map["meta" := JObj(map["name" := JStr(name)])])
  }

  /** With the source's setter, a bundle named "A" that is renamed "B"
      still reports "A": the new name lands in the content and the getter
      reads the header. */
  lemma RenameNotReadBack()
    ensures Put(Named("A"), MetaName, JStr("B")) == Ok(Named("B"))
    ensures At(Named("A"), MetaName) == Ok(JStr("A"))
  {
    var inner := JObj(map["name" := JStr("A")]);
    assert MetaName[1..] == [KStr("name")];
    assert Put(inner, [KStr("name")], JStr("B")) == Ok(JObj(map["name" := JStr("A")]["name" := JStr("B")]));
    assert map["name" := JStr("A")]["name" := JStr("B")] == map["name" := JStr("B")];
    assert map["meta" := inner]["meta" := JObj(map["name" := JStr("B")])] == map["meta" := JObj(map["name" := JStr("B")])];
  }
}
