/** Helix file handling (helixapi/utils/files.py): the three file types and
    their templates, the checks done before reading or writing a file, the
    unique-name search, and the import/export of files.  A preset file
    (`.hlx`) is plain JSON; a setlist (`.hls`) or bundle (`.hlb`) file is a
    JSON header whose `encoded_data` field holds the content as compact JSON,
    zlib-compressed and base64-encoded, with its size and CRC-32 recorded in
    the header's `compression` field. */
module Files {
  import opened Prelude
  import opened PyStr
  import opened JsonDoc

  newtype byte = x: int | 0 <= x < 256
  type Bytes = seq<byte>

  datatype FileType = Bundle | Setlist | Preset

  /** The enum member's value: the file extension. */
  function Extension(t: FileType): string {
    match t
    case Bundle => "hlb"
    case Setlist => "hls"
    case Preset => "hlx"
  }

  /** The enum member's name, lower-cased (the item class names). */
  function TypeName(t: FileType): string {
    match t
    case Bundle => "bundle"
    case Setlist => "setlist"
    case Preset => "preset"
  }

  /** `FileType.get_type`: the type whose extension is the text after the
      last '.', compared case-insensitively. */
  function GetType(path: string): (r: Option<FileType>)
    ensures r.Some? ==> Lower(LastPiece(path, '.')) == Extension(r.value)
    ensures r.None? ==> forall t :: Lower(LastPiece(path, '.')) != Extension(t)
  {
    var ext := Lower(LastPiece(path, '.'));
    if ext == "hlb" then Some(Bundle)
    else if ext == "hls" then Some(Setlist)
    else if ext == "hlx" then Some(Preset)
    else None
  }

  /** Naming a file `<anything>.<extension>` gives it that type. */
  lemma GetTypeOfExtension(base: string, t: FileType)
    ensures GetType(base + "." + Extension(t)) == Some(t)
  {
    LastPieceAfterSep(base, '.', Extension(t));
    assert base + "." + Extension(t) == base + ['.'] + Extension(t);
    var e := Extension(t);
    assert Lower(e) == e;
  }

  /** A path with a type does not end in '/', so it is never its own
      directory. */
  lemma TypedPathNotItsDirectory(path: string)
    requires GetType(path).Some?
    ensures path != "" && path[|path| - 1] != '/'
    ensures DirName(path) != path
  {
    var piece := LastPiece(path, '.');
    var ext := Lower(piece);
    assert |ext| == 3;
    assert piece[|piece| - 1] != '/' by { assert ext[2] == LowerChar(piece[2]); }
    assert path[|path| - 1] == piece[|piece| - 1];
    var head := path[..RFind(path, '/') + 1];
    assert |head| < |path|;
  }

  /** `FileType.get_member_by_name`: the member named (case-insensitively)
      by `name`; a `ValueError` otherwise. */
  function MemberByName(name: string): (r: Result<FileType>)
    ensures r.Ok? ==> Upper(name) == Upper(TypeName(r.value))
    ensures r.Err? ==> r.error == InvalidTypeName && forall t :: Upper(name) != Upper(TypeName(t))
  {
    var n := Upper(name);
    if n == "BUNDLE" then Ok(Bundle)
    else if n == "SETLIST" then Ok(Setlist)
    else if n == "PRESET" then Ok(Preset)
    else Err(InvalidTypeName)
  }

  /** `FileType.get_extension_by_name`: the extension of the type whose
      name matches `name` ignoring case; a `ValueError` when none does. */
  function ExtensionByName(name: string): (r: Result<string>)
    ensures r.Ok? <==> exists t :: Upper(name) == Upper(TypeName(t))
    ensures forall t :: Upper(name) == Upper(TypeName(t)) ==> r == Ok(Extension(t))
    ensures r.Err? ==> r.error == InvalidTypeName
  {
    match MemberByName(name)
    case Ok(t) => OnlyTypeWithItsName(t); Ok(Extension(t))
    case Err(e) => Err(e)
  }

  /** No two types have the same name, even ignoring case. */
  lemma OnlyTypeWithItsName(t: FileType)
    ensures forall u :: Upper(TypeName(u)) == Upper(TypeName(t)) ==> u == t
  {
    forall u | Upper(TypeName(u)) == Upper(TypeName(t))
      ensures u == t
    {
      assert Upper(TypeName(u))[0] == UpperChar(TypeName(u)[0]);
      assert Upper(TypeName(t))[0] == UpperChar(TypeName(t)[0]);
    }
  }

  /** `FileType.exists_by_name`. */
  predicate ExistsByName(name: string) {
    MemberByName(name).Ok?
  }

  /** Each type is found again by its own name, in any letter case. */
  lemma MemberByOwnName(t: FileType)
    ensures MemberByName(TypeName(t)) == Ok(t)
    ensures MemberByName(Upper(TypeName(t))) == Ok(t)
    ensures ExtensionByName(TypeName(t)) == Ok(Extension(t))
  {
    var n := TypeName(t);
    var u := Upper(n);
    assert Upper(u) == u;
    match t
    case Bundle => assert u == "BUNDLE";
    case Setlist => assert u == "SETLIST";
    case Preset => assert u == "PRESET";
  }

  /** Where the package's templates are installed
      (`<package>/templates`). */
  const TemplateDir := "/helixapi/templates"

  /** `TemplatePath.<TYPE>.value`. */
  function TemplateFile(t: FileType): string {
    TemplateDir + "/" + TypeName(t) + "." + Extension(t)
  }

  /** `TemplatePath.get_by_file_type`: `None` for no type. */
  function TemplateByType(t: Option<FileType>): Option<string> {
    match t
    case Some(ft) => Some(TemplateFile(ft))
    case None => None
  }

  /** `TemplatePath.get_by_file_path`. */
  function TemplateByPath(path: string): Option<string> {
    TemplateByType(GetType(path))
  }

  /** `TemplatePath.get_by_file_type_name`. */
  function TemplateByTypeName(name: string): (r: Result<string>)
    ensures r.Err? <==> !ExistsByName(name)
  {
    match MemberByName(name)
    case Ok(t) => Ok(TemplateFile(t))
    case Err(e) => Err(e)
  }

  /** Every template has its own type, so the template of a file's type is
      a file of that same type. */
  lemma TemplateHasOwnType(t: FileType, path: string)
    ensures GetType(TemplateFile(t)) == Some(t)
    ensures GetType(path).Some? ==> TemplateByPath(path) == Some(TemplateFile(GetType(path).value))
    ensures GetType(path).Some? ==> GetType(TemplateByPath(path).value) == GetType(path)
  {
    GetTypeOfExtension(TemplateDir + "/" + TypeName(t), t);
    if GetType(path).Some? {
      GetTypeOfExtension(TemplateDir + "/" + TypeName(GetType(path).value), GetType(path).value);
    }
  }

  /** A directory entry: a file with its permissions and its bytes, or a
      directory. */
  datatype Entry = File(readable: bool, writable: bool, content: Bytes) | Directory(writable: bool)

  type FileSystem = map<string, Entry>

  /** The file system as the program sees it, read and written in place. */
  class Disk {
    var fs: FileSystem

    constructor(fs: FileSystem)
      ensures this.fs == fs
    {
      this.fs := fs;
    }
  }

  predicate IsFile(fs: FileSystem, p: string) { p in fs && fs[p].File? }
  predicate IsDir(fs: FileSystem, p: string) { p in fs && fs[p].Directory? }

  /** `_check_nonexisting_file`: the path must name a file type, and its
      directory must exist and be writable; checked in that order.  A bare
      file name has the directory `""`, which `os.path.isdir` rejects. */
  function CheckNonexisting(fs: FileSystem, path: string): (r: Outcome)
    ensures r.Pass? <==> GetType(path).Some? && DirName(path) != "" && IsDir(fs, DirName(path))
                         && fs[DirName(path)].writable
    ensures GetType(path).Some? && DirName(path) == "" ==> r == Fail(DirectoryMissing)
  {
    if GetType(path).None? then Fail(BadExtension)
    else if DirName(path) == "" || !IsDir(fs, DirName(path)) then Fail(DirectoryMissing)
    else if !fs[DirName(path)].writable then Fail(DirectoryNotWritable)
    else Pass
  }

  /** A path without a '/' is refused whatever the file system holds: its
      directory is `""`. */
  lemma BareFileNameRefused(fs: FileSystem, name: string)
    requires forall i :: 0 <= i < |name| ==> name[i] != '/'
    ensures CheckNonexisting(fs, name).Fail?
  {
    assert RFind(name, '/') == -1;
    assert DirName(name) == "";
  }

  /** `_check_existing_file`: a non-empty path naming an existing,
      readable file, which must also pass `CheckNonexisting`. */
  function CheckExisting(fs: FileSystem, path: string): (r: Outcome)
    ensures r.Pass? <==> path != "" && IsFile(fs, path) && fs[path].readable
                         && CheckNonexisting(fs, path).Pass?
    ensures path == "" ==> r == Fail(PathNotProvided)
    ensures path != "" && path !in fs ==> r == Fail(FileMissing)
  {
    if path == "" then Fail(PathNotProvided)
    else if path !in fs then Fail(FileMissing)
    else if !fs[path].File? then Fail(NotAFile)
    else if !fs[path].readable then Fail(NotReadable)
    else CheckNonexisting(fs, path)
  }

  /** Candidate `n` of the unique-name search: the name itself, then
      `"<base> (n)<ext>"` where `os.path.splitext` splits off the
      extension. */
  function Numbered(name: string, n: nat): string {
    if n == 0 then name
    else
      var (base, ext) := SplitExt(name);
      base + " (" + NatToString(n) + ")" + ext
  }

  /** Distinct counters give distinct candidates. */
  lemma NumberedInjective(name: string, a: nat, b: nat)
    requires a != b
    ensures Numbered(name, a) != Numbered(name, b)
  {
    if a != 0 && b != 0 {
      if Numbered(name, a) == Numbered(name, b) {
        NumberedCounter(name, a, b);
      }
    } else {
      var (base, ext) := SplitExt(name);
      assert |name| == |base| + |ext|;
      assert |Numbered(name, a)| != |Numbered(name, b)|;
    }
  }

  /** Two numbered candidates that agree carry the same counter. */
  lemma NumberedCounter(name: string, a: nat, b: nat)
    requires a != 0 && b != 0 && Numbered(name, a) == Numbered(name, b)
    ensures a == b
  {
    var (base, ext) := SplitExt(name);
    var sa, sb := NatToString(a), NatToString(b);
    var front, back := base + " (", ")" + ext;
    assert Numbered(name, a) == front + sa + back;
    assert Numbered(name, b) == front + sb + back;
    SameFrame(front, sa, sb, back);
    NatToStringInjective(a, b);
  }

  /** `_get_unique_filename`: the first candidate that does not exist. */
  method UniqueFilename(fs: FileSystem, name: string) returns (r: string)
    ensures r !in fs
    ensures exists n: nat :: r == Numbered(name, n) && forall m: nat :: m < n ==> Numbered(name, m) in fs
  {
    var base, ext := SplitExt(name).0, SplitExt(name).1;
    var counter: nat := 1;
    r := name;
    ghost var remaining := fs.Keys;
    while r in fs
      invariant r == Numbered(name, counter - 1)
      invariant forall m: nat :: m < counter - 1 ==> Numbered(name, m) in fs
      invariant forall m: nat :: m >= counter - 1 && Numbered(name, m) in fs ==> Numbered(name, m) in remaining
      decreases |remaining|
    {
      forall m: nat | m >= counter && Numbered(name, m) in fs
        ensures Numbered(name, m) in remaining - {r}
      {
        NumberedInjective(name, m, counter - 1);
      }
      remaining := remaining - {r};
      r := base + " (" + NatToString(counter) + ")" + ext;
      counter := counter + 1;
    }
  }

  /** The encoders the file format relies on, as function values: JSON
      text (`json.dumps` with compact separators, `json.dump` with
      `indent=1`, `json.load(s)`, each through UTF-8), zlib, base64 and
      CRC-32.  The model assumes nothing about them but the laws of
      `Lawful`. */
  datatype Codec = Codec(
    dumpCompact: Json -> Bytes,
    dumpPretty: Json -> Bytes,
    load: Bytes -> Option<Json>,
    compress: Bytes -> Bytes,
    decompress: Bytes -> Option<Bytes>,
    b64encode: Bytes -> string,
    b64decode: string -> Option<Bytes>,
    crc32: Bytes -> nat)

  /** The inverse laws of the encoders: JSON text of a serializable value
      loads back as that value, decompression undoes compression, base64
      decoding undoes encoding; CRC-32 is a 32-bit value; compact JSON text
      has no surrounding whitespace. */
  ghost predicate Lawful(c: Codec) {
    && (forall j :: Serializable(j) ==> c.load(c.dumpCompact(j)) == Some(j))
    && (forall j :: Serializable(j) ==> c.load(c.dumpPretty(j)) == Some(j))
    && (forall j :: Serializable(j) ==> Strip(c.dumpCompact(j)) == c.dumpCompact(j))
    && (forall b :: c.decompress(c.compress(b)) == Some(b))
    && (forall b :: c.b64decode(c.b64encode(b)) == Some(b))
    && (forall b :: c.crc32(b) < 0x1_0000_0000)
  }

  /** The bytes `bytes.strip()` removes: ASCII whitespace. */
  predicate IsSpace(b: byte) { b == 32 || (9 <= b <= 13) }

  /** `bytes.strip()`. */
  function Strip(b: Bytes): (r: Bytes)
    ensures r == [] || (!IsSpace(r[0]) && !IsSpace(r[|r| - 1]))
    ensures |r| <= |b|
    ensures b == [] || (!IsSpace(b[0]) && !IsSpace(b[|b| - 1])) ==> r == b
    decreases |b|
  {
    if b == [] then []
    else if IsSpace(b[0]) then Strip(b[1..])
    else if IsSpace(b[|b| - 1]) then Strip(b[..|b| - 1])
    else b
  }

  const EncodedData := "encoded_data"
  const MetaName := [KStr("meta"), KStr("name")]
  const MetaModified := [KStr("meta"), KStr("modifieddate")]
  const EncodedField := [KStr(EncodedData)]
  const CompressionSize := [KStr("compression"), KStr("decompressed_size")]
  const CompressionCrc := [KStr("compression"), KStr("crc32")]

  /** `d.pop("encoded_data")` on a loaded header: the popped value and
      what is left.  Only a dict has the key; a list's `pop` wants an
      integer, and other values have no `pop`. */
  function PopEncoded(header: Json): (r: Result<(Json, Json)>)
    ensures r.Ok? ==> header.JObj? && EncodedData in header.fields
                      && r.value == (header.fields[EncodedData], JObj(header.fields - {EncodedData}))
  {
    match header
    case JObj(m) => if EncodedData in m then Ok((m[EncodedData], JObj(m - {EncodedData}))) else Err(MissingKey)
    case JArr(_) => Err(NotSubscriptable)
    case _ => Err(AttributeMissing)
  }

  /** `Files._import_file`: the content and the header of a file.  A
      preset file is all content, with an empty header; otherwise the
      content is decoded from the header's `encoded_data`, which is removed
      from the header. */
  function ImportFile(fs: FileSystem, c: Codec, path: string): (r: Result<(Json, Json)>)
    ensures CheckExisting(fs, path).Fail? ==> r == Err(CheckExisting(fs, path).error)
    ensures r.Ok? && GetType(path) == Some(Preset) ==> r.value.1 == JObj(map[])
  {
    var check := CheckExisting(fs, path);
    if check.Fail? then Err(check.error)
    else match c.load(fs[path].content)
      case None => Err(DecodeFailed)
      case Some(fileData) =>
        if GetType(path) == Some(Preset) then Ok((fileData, JObj(map[])))
        else match PopEncoded(fileData)
          case Err(e) => Err(e)
          case Ok((encoded, header)) =>
            if !encoded.JStr? then Err(NotAString)
            else match c.b64decode(encoded.s)
              case None => Err(DecodeFailed)
              case Some(compressed) =>
                match c.decompress(compressed)
                case None => Err(DecodeFailed)
                case Some(raw) =>
                  match c.load(Strip(raw))
                  case None => Err(DecodeFailed)
                  case Some(data) => Ok((data, header))
  }

  /** An import reads only the file and its directory: a write anywhere
      else leaves it as it was. */
  lemma ImportFileFrame(before: FileSystem, after: FileSystem, c: Codec, q: string, w: string)
    requires forall x :: x != w ==> (x in after <==> x in before) && (x in before ==> after[x] == before[x])
    requires ImportFile(before, c, q).Ok? && w != q && !IsDir(before, w)
    ensures ImportFile(after, c, q) == ImportFile(before, c, q)
  {
    assert CheckExisting(before, q).Pass?;
    assert IsDir(before, DirName(q));
    assert CheckExisting(after, q) == CheckExisting(before, q);
  }

  /** `open(path, 'w')` followed by `json.dump(j, file, indent=1)`.  Opening
      a directory or an existing read-only file fails and writes nothing;
      opening otherwise truncates the file, a value that cannot be
      serialized fails after that, and the model leaves the file empty. */
  function WritePretty(fs: FileSystem, c: Codec, path: string, j: Json): (r: (FileSystem, Outcome))
    ensures r.1.Pass? <==> !IsDir(fs, path) && !(IsFile(fs, path) && !fs[path].writable) && Serializable(j)
    ensures r.1.Pass? ==> r.0 == fs[path := File(true, true, c.dumpPretty(j))]
    ensures IsFile(fs, path) && !fs[path].writable ==> r == (fs, Fail(FileNotWritable))
    ensures forall q :: q != path ==> (q in r.0 <==> q in fs) && (q in fs ==> r.0[q] == fs[q])
  {
    if IsDir(fs, path) then (fs, Fail(IsADirectory))
    else if path in fs && !fs[path].writable then (fs, Fail(FileNotWritable))
    else if !Serializable(j) then (fs[path := File(true, true, [])], Fail(NotSerializable))
    else (fs[path := File(true, true, c.dumpPretty(j))], Pass)
  }

  /** The header a setlist or bundle file is written with when the item
      has no metadata: the template's header without `encoded_data`. */
  function TemplateHeader(fs: FileSystem, c: Codec, template: string): Result<Json>
    requires IsFile(fs, template)
  {
    match c.load(fs[template].content)
    case None => Err(DecodeFailed)
    case Some(h) =>
      match PopEncoded(h)
      case Err(e) => Err(e)
      case Ok((_, rest)) => Ok(rest)
  }

  /** The header stamped with the item's name, the time, the encoded
      content and its size and CRC-32, field by field; a missing field
      raises with the earlier fields already set. */
  function Stamp(m: Json, name: Json, now: int, encoded: string, size: nat, crc: nat): (Json, Outcome) {
    match Put(m, MetaName, name)
    case Err(e) => (m, Fail(e))
    case Ok(m1) =>
      match Put(m1, MetaModified, JInt(now))
      case Err(e) => (m1, Fail(e))
      case Ok(m2) =>
        match Put(m2, EncodedField, JStr(encoded))
        case Err(e) => (m2, Fail(e))
        case Ok(m3) =>
          match Put(m3, CompressionSize, JInt(size))
          case Err(e) => (m3, Fail(e))
          case Ok(m4) =>
            match Put(m4, CompressionCrc, JInt(crc))
            case Err(e) => (m4, Fail(e))
            case Ok(m5) => (m5, Pass)
  }

  /** A completed stamp holds each of the values it was given. */
  lemma StampFields(m: Json, name: Json, now: int, encoded: string, size: nat, crc: nat)
    requires Stamp(m, name, now, encoded, size, crc).1.Pass?
    ensures var h := Stamp(m, name, now, encoded, size, crc).0;
            && At(h, MetaName) == Ok(name)
            && At(h, MetaModified) == Ok(JInt(now))
            && At(h, EncodedField) == Ok(JStr(encoded))
            && At(h, CompressionSize) == Ok(JInt(size))
            && At(h, CompressionCrc) == Ok(JInt(crc))
  {
    var m1 := Put(m, MetaName, name).value;
    var m2 := Put(m1, MetaModified, JInt(now)).value;
    var m3 := Put(m2, EncodedField, JStr(encoded)).value;
    StampFirstFields(m, name, now, encoded);
    StampLastFields(m3, name, now, encoded, size, crc);
  }

  /** The first three stamped fields hold their values. */
  lemma StampFirstFields(m: Json, name: Json, now: int, encoded: string)
    requires Put(m, MetaName, name).Ok?
    requires Put(Put(m, MetaName, name).value, MetaModified, JInt(now)).Ok?
    requires Put(Put(Put(m, MetaName, name).value, MetaModified, JInt(now)).value, EncodedField, JStr(encoded)).Ok?
    ensures var m3 := Put(Put(Put(m, MetaName, name).value, MetaModified, JInt(now)).value, EncodedField, JStr(encoded)).value;
            && At(m3, MetaName) == Ok(name)
            && At(m3, MetaModified) == Ok(JInt(now))
            && At(m3, EncodedField) == Ok(JStr(encoded))
  {
    var m1 := Put(m, MetaName, name).value;
    var m2 := Put(m1, MetaModified, JInt(now)).value;
    AtAfterPut(m, MetaName, name);
    AtAfterPut(m1, MetaModified, JInt(now));
    AtAfterPut(m2, EncodedField, JStr(encoded));
    PutKeeps(m1, MetaModified, JInt(now), MetaName);
    PutKeeps(m2, EncodedField, JStr(encoded), MetaName);
    PutKeeps(m2, EncodedField, JStr(encoded), MetaModified);
  }

  /** The size and CRC fields are stamped without disturbing the first
      three. */
  lemma StampLastFields(m3: Json, name: Json, now: int, encoded: string, size: nat, crc: nat)
    requires At(m3, MetaName) == Ok(name) && At(m3, MetaModified) == Ok(JInt(now))
    requires At(m3, EncodedField) == Ok(JStr(encoded))
    requires Put(m3, CompressionSize, JInt(size)).Ok?
    requires Put(Put(m3, CompressionSize, JInt(size)).value, CompressionCrc, JInt(crc)).Ok?
    ensures var h := Put(Put(m3, CompressionSize, JInt(size)).value, CompressionCrc, JInt(crc)).value;
            && At(h, MetaName) == Ok(name)
            && At(h, MetaModified) == Ok(JInt(now))
            && At(h, EncodedField) == Ok(JStr(encoded))
            && At(h, CompressionSize) == Ok(JInt(size))
            && At(h, CompressionCrc) == Ok(JInt(crc))
  {
    var m4 := Put(m3, CompressionSize, JInt(size)).value;
    StampSizeField(m3, name, now, encoded, size);
    AtAfterPut(m4, CompressionCrc, JInt(crc));
    PutKeeps(m4, CompressionCrc, JInt(crc), MetaName);
    PutKeeps(m4, CompressionCrc, JInt(crc), MetaModified);
    PutKeeps(m4, CompressionCrc, JInt(crc), EncodedField);
    PutKeeps(m4, CompressionCrc, JInt(crc), CompressionSize);
  }

  /** The size field is stamped without disturbing the first three. */
  lemma StampSizeField(m3: Json, name: Json, now: int, encoded: string, size: nat)
    requires At(m3, MetaName) == Ok(name) && At(m3, MetaModified) == Ok(JInt(now))
    requires At(m3, EncodedField) == Ok(JStr(encoded))
    requires Put(m3, CompressionSize, JInt(size)).Ok?
    ensures var m4 := Put(m3, CompressionSize, JInt(size)).value;
            && At(m4, MetaName) == Ok(name)
            && At(m4, MetaModified) == Ok(JInt(now))
            && At(m4, EncodedField) == Ok(JStr(encoded))
            && At(m4, CompressionSize) == Ok(JInt(size))
  {
    AtAfterPut(m3, CompressionSize, JInt(size));
    PutKeeps(m3, CompressionSize, JInt(size), MetaName);
    PutKeeps(m3, CompressionSize, JInt(size), MetaModified);
    PutKeeps(m3, CompressionSize, JInt(size), EncodedField);
  }

  /** `PutFrame` for header fields that differ in their first or second
      key. */
  lemma PutKeeps(n: Json, p: seq<Key>, v: Json, q: seq<Key>)
    requires Put(n, p, v).Ok? && CanonicalPath(p) && CanonicalPath(q) && |p| >= 1 && |q| >= 1
    requires p[0] != q[0] || (|p| > 1 && |q| > 1 && p[0] == q[0] && p[1] != q[1])
    ensures At(Put(n, p, v).value, q) == At(n, q)
  {
    if p[0] != q[0] {
      assert p[..0] == q[..0];
    } else {
      assert p[..1] == q[..1];
    }
    PutFrame(n, p, v, q);
  }

  /** What an export leaves behind: its outcome, the file system, and the
      caller's metadata object, which the export updates in place when it is
      not empty. */
  datatype Exported = Exported(outcome: Outcome, fs: FileSystem, metadata: Json)

  /** What a successful setlist or bundle export leaves: the template file
      exists, the name is found, and the header written at `path` is the
      caller's metadata, or when that is empty the template's header without
      `encoded_data`, stamped for `data`; non-empty caller metadata is
      stamped in place the same way. */
  ghost predicate EncodedExportFrom(fs: FileSystem, c: Codec, t: FileType, data: Json, metadata: Json,
                                    now: int, path: string, r: Exported)
  {
    && IsFile(fs, TemplateFile(t))
    && At(ExportNameSource(t, data, metadata), MetaName).Ok?
    && (Truthy(metadata) || TemplateHeader(fs, c, TemplateFile(t)).Ok?)
    && var header := if Truthy(metadata) then metadata else TemplateHeader(fs, c, TemplateFile(t)).value;
       var s := StampFor(c, header, At(ExportNameSource(t, data, metadata), MetaName).value, now, data);
       && s.1.Pass?
       && path in r.fs && r.fs[path].File? && r.fs[path].content == c.dumpPretty(s.0)
       && (Truthy(metadata) ==> r.metadata == s.0)
  }

  /** Where the exported name is read: the setlist itself, or the bundle's
      metadata. */
  function ExportNameSource(t: FileType, data: Json, metadata: Json): Json {
    if t == Setlist then data else metadata
  }

  /** `Files._export_file` at time `now`.  A preset is written as pretty
      JSON; a setlist or bundle is encoded into a header. */
  function ExportFile(fs: FileSystem, c: Codec, path: string, data: Json, metadata: Json, now: int): (r: Exported)
    ensures forall q :: q != path ==> (q in r.fs <==> q in fs) && (q in fs ==> r.fs[q] == fs[q])
    ensures !Truthy(metadata) ==> r.metadata == metadata
    ensures r.outcome.Pass? ==> IsFile(r.fs, path) && !IsDir(fs, path) && GetType(path).Some?
    ensures r.outcome.Pass? && GetType(path) == Some(Preset) ==>
              r.fs[path].content == c.dumpPretty(data) && r.metadata == metadata
    ensures r.outcome.Pass? && GetType(path) != Some(Preset) ==>
              EncodedExportFrom(fs, c, GetType(path).value, data, metadata, now, path, r)
  {
    var check := CheckNonexisting(fs, path);
    if check.Fail? then Exported(check, fs, metadata)
    else if GetType(path) == Some(Preset) then
      var (fs1, o) := WritePretty(fs, c, path, data);
      Exported(o, fs1, metadata)
    else ExportEncoded(fs, c, path, GetType(path).value, data, metadata, now)
  }

  /** The setlist and bundle half of `_export_file`: the type's template
      must pass `CheckExisting`; the name is read from the content (setlist)
      or the metadata (bundle); the content must be a dict or list
      (`data.copy()`) and serializable. */
  function ExportEncoded(fs: FileSystem, c: Codec, path: string, t: FileType, data: Json, metadata: Json, now: int): (r: Exported)
    ensures forall q :: q != path ==> (q in r.fs <==> q in fs) && (q in fs ==> r.fs[q] == fs[q])
    ensures !Truthy(metadata) ==> r.metadata == metadata
    ensures r.outcome.Pass? ==> IsFile(r.fs, path) && !IsDir(fs, path)
    ensures r.outcome.Pass? ==> EncodedExportFrom(fs, c, t, data, metadata, now, path, r)
  {
    var template := TemplateFile(t);
    var tcheck := CheckExisting(fs, template);
    if tcheck.Fail? then Exported(tcheck, fs, metadata)
    else if !(data.JObj? || data.JArr?) then Exported(Fail(AttributeMissing), fs, metadata)
    else
      match At(ExportNameSource(t, data, metadata), MetaName)
      case Err(e) => Exported(Fail(e), fs, metadata)
      case Ok(name) =>
        if !Serializable(data) then Exported(Fail(NotSerializable), fs, metadata)
        else
          var base := if Truthy(metadata) then Ok(metadata) else TemplateHeader(fs, c, template);
          match base
          case Err(e) => Exported(Fail(e), fs, metadata)
          case Ok(header) => WriteHeader(fs, c, path, data, metadata, header, name, now)
  }

  /** `header` stamped for `data`: the name, the time, and the compressed,
      base64-encoded compact JSON of the content with its size and CRC-32. */
  function StampFor(c: Codec, header: Json, name: Json, now: int, data: Json): (Json, Outcome) {
    var raw := c.dumpCompact(data);
    Stamp(header, name, now, c.b64encode(c.compress(raw)), |raw|, c.crc32(raw))
  }

  /** Encoding the content into `header` and writing the header.  Non-empty
      caller metadata is the header, so it is stamped in place. */
  function WriteHeader(fs: FileSystem, c: Codec, path: string, data: Json, metadata: Json,
                       header: Json, name: Json, now: int): (r: Exported)
    ensures forall q :: q != path ==> (q in r.fs <==> q in fs) && (q in fs ==> r.fs[q] == fs[q])
    ensures !Truthy(metadata) ==> r.metadata == metadata
    ensures Truthy(metadata) ==> r.metadata == StampFor(c, header, name, now, data).0
    ensures r.outcome.Pass? ==> IsFile(r.fs, path) && !IsDir(fs, path)
    ensures r.outcome.Pass? ==> StampFor(c, header, name, now, data).1.Pass?
    ensures r.outcome.Pass? ==> r.fs[path].content == c.dumpPretty(StampFor(c, header, name, now, data).0)
  {
    var (stamped, so) := StampFor(c, header, name, now, data);
    var callerMetadata := if Truthy(metadata) then stamped else metadata;
    if so.Fail? then Exported(so, fs, callerMetadata)
    else
      var (fs1, o) := WritePretty(fs, c, path, stamped);
      Exported(o, fs1, callerMetadata)
  }

  /** A header with its `encoded_data` field removed. */
  function WithoutEncoded(h: Json): Json {
    match h
    case JObj(m) => JObj(m - {EncodedData})
    case _ => h
  }

  /** Exporting and importing back gives the content that was exported.  A
      setlist or bundle header read back carries the item's name, the size
      and CRC-32 of the compact JSON content, and, when the caller had
      metadata, exactly the caller's updated metadata without
      `encoded_data`. */
  lemma ExportImportRoundTrip(fs: FileSystem, c: Codec, path: string, data: Json, metadata: Json, now: int)
    requires Lawful(c)
    requires ExportFile(fs, c, path, data, metadata, now).outcome.Pass?
    ensures var e := ExportFile(fs, c, path, data, metadata, now);
            var imp := ImportFile(e.fs, c, path);
            && imp.Ok? && imp.value.0 == data
            && (GetType(path) == Some(Preset) ==> imp.value.1 == JObj(map[]))
            && (GetType(path) != Some(Preset) ==>
                  var t := GetType(path).value;
                  && At(imp.value.1, MetaName) == At(ExportNameSource(t, data, metadata), MetaName)
                  && At(imp.value.1, MetaModified) == Ok(JInt(now))
                  && At(imp.value.1, CompressionSize) == Ok(JInt(|c.dumpCompact(data)|))
                  && At(imp.value.1, CompressionCrc) == Ok(JInt(c.crc32(c.dumpCompact(data))))
                  && (Truthy(metadata) ==> imp.value.1 == WithoutEncoded(e.metadata))
                  && (!Truthy(metadata) ==>
                        imp.value.1 == WithoutEncoded(StampFor(c, TemplateHeader(fs, c, TemplateFile(t)).value,
                                                               At(ExportNameSource(t, data, metadata), MetaName).value, now, data).0)))
  {
    var t := GetType(path).value;
    if t == Preset {
      PresetRoundTrip(fs, c, path, data, metadata, now);
    } else {
      EncodedRoundTrip(fs, c, path, t, data, metadata, now);
    }
  }

  lemma PresetRoundTrip(fs: FileSystem, c: Codec, path: string, data: Json, metadata: Json, now: int)
    requires Lawful(c) && GetType(path) == Some(Preset)
    requires ExportFile(fs, c, path, data, metadata, now).outcome.Pass?
    ensures ImportFile(ExportFile(fs, c, path, data, metadata, now).fs, c, path) == Ok((data, JObj(map[])))
  {
    TypedPathNotItsDirectory(path);
    var e := ExportFile(fs, c, path, data, metadata, now);
    assert e.fs == fs[path := File(true, true, c.dumpPretty(data))];
    assert CheckExisting(e.fs, path).Pass?;
  }

  lemma EncodedRoundTrip(fs: FileSystem, c: Codec, path: string, t: FileType, data: Json, metadata: Json, now: int)
    requires Lawful(c) && GetType(path) == Some(t) && t != Preset
    requires ExportFile(fs, c, path, data, metadata, now).outcome.Pass?
    ensures var e := ExportFile(fs, c, path, data, metadata, now);
            var imp := ImportFile(e.fs, c, path);
            && imp.Ok? && imp.value.0 == data
            && At(imp.value.1, MetaName) == At(ExportNameSource(t, data, metadata), MetaName)
            && At(imp.value.1, MetaModified) == Ok(JInt(now))
            && At(imp.value.1, CompressionSize) == Ok(JInt(|c.dumpCompact(data)|))
            && At(imp.value.1, CompressionCrc) == Ok(JInt(c.crc32(c.dumpCompact(data))))
            && (Truthy(metadata) ==> imp.value.1 == WithoutEncoded(e.metadata))
            && (!Truthy(metadata) ==>
                  imp.value.1 == WithoutEncoded(StampFor(c, TemplateHeader(fs, c, TemplateFile(t)).value,
                                                         At(ExportNameSource(t, data, metadata), MetaName).value, now, data).0))
  {
    var template := TemplateFile(t);
    var nameSource := ExportNameSource(t, data, metadata);
    assert ExportFile(fs, c, path, data, metadata, now) == ExportEncoded(fs, c, path, t, data, metadata, now);
    var name := At(nameSource, MetaName).value;
    var header := if Truthy(metadata) then metadata else TemplateHeader(fs, c, template).value;
    assert ExportEncoded(fs, c, path, t, data, metadata, now) == WriteHeader(fs, c, path, data, metadata, header, name, now);
    WriteHeaderRoundTrip(fs, c, path, data, metadata, header, name, now);
  }

  lemma WriteHeaderRoundTrip(fs: FileSystem, c: Codec, path: string, data: Json, metadata: Json,
                             header: Json, name: Json, now: int)
    requires Lawful(c) && Serializable(data)
    requires CheckNonexisting(fs, path).Pass? && GetType(path) != Some(Preset)
    requires WriteHeader(fs, c, path, data, metadata, header, name, now).outcome.Pass?
    ensures var e := WriteHeader(fs, c, path, data, metadata, header, name, now);
            var imp := ImportFile(e.fs, c, path);
            && imp.Ok? && imp.value.0 == data
            && imp.value.1 == WithoutEncoded(StampFor(c, header, name, now, data).0)
            && At(imp.value.1, MetaName) == Ok(name)
            && At(imp.value.1, MetaModified) == Ok(JInt(now))
            && At(imp.value.1, CompressionSize) == Ok(JInt(|c.dumpCompact(data)|))
            && At(imp.value.1, CompressionCrc) == Ok(JInt(c.crc32(c.dumpCompact(data))))
            && (Truthy(metadata) ==> imp.value.1 == WithoutEncoded(e.metadata))
  {
    var raw := c.dumpCompact(data);
    var encoded := c.b64encode(c.compress(raw));
    var stamped := StampFor(c, header, name, now, data).0;
    StampFields(header, name, now, encoded, |raw|, c.crc32(raw));
    StrippedHeaderKeeps(stamped);
    ImportOfWritten(fs, c, path, stamped, data);
  }

  /** Importing a header just written whose `encoded_data` holds encoded
      content gives back that content and the rest of the header. */
  lemma ImportOfWritten(fs: FileSystem, c: Codec, path: string, h: Json, data: Json)
    requires Lawful(c) && Serializable(h) && Serializable(data)
    requires CheckNonexisting(fs, path).Pass? && GetType(path) != Some(Preset)
    requires At(h, EncodedField) == Ok(JStr(c.b64encode(c.compress(c.dumpCompact(data)))))
    ensures ImportFile(fs[path := File(true, true, c.dumpPretty(h))], c, path) == Ok((data, WithoutEncoded(h)))
  {
    var fs1 := fs[path := File(true, true, c.dumpPretty(h))];
    TypedPathNotItsDirectory(path);
    assert CheckExisting(fs1, path).Pass?;
    assert c.load(fs1[path].content) == Some(h);
    assert PopEncoded(h) == Ok((h.fields[EncodedData], WithoutEncoded(h)));
    var raw := c.dumpCompact(data);
    assert c.b64decode(c.b64encode(c.compress(raw))) == Some(c.compress(raw));
    assert c.decompress(c.compress(raw)) == Some(raw);
    assert c.load(Strip(raw)) == Some(data);
  }

  /** Removing `encoded_data` keeps the other header fields. */
  lemma StrippedHeaderKeeps(h: Json)
    requires At(h, EncodedField).Ok?
    ensures h.JObj?
    ensures At(WithoutEncoded(h), MetaName) == At(h, MetaName)
    ensures At(WithoutEncoded(h), MetaModified) == At(h, MetaModified)
    ensures At(WithoutEncoded(h), CompressionSize) == At(h, CompressionSize)
    ensures At(WithoutEncoded(h), CompressionCrc) == At(h, CompressionCrc)
  {
  }
}
