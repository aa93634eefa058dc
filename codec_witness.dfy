/** A codec that meets `Files.Lawful`.  The round-trip lemmas of the file
    layer assume the encoders are lawful; this module shows such
    encoders exist, so those lemmas are about reachable states.  The JSON
    text is a tagged, prefix-free byte code that starts with a tag byte
    and ends with a zero byte (neither is whitespace), compression is the identity, base64 writes each
    byte as one character, and the checksum is zero. */
module CodecWitness {
  import opened Prelude
  import opened LedColors
  import opened JsonDoc
  import opened Files

  /** Naturals in unary: `n` ones and a zero. */
  function EncNat(n: nat): (r: Bytes)
    ensures |r| == n + 1
  {
    if n == 0 then [0] else [1] + EncNat(n - 1)
  }

  function DecNat(b: Bytes): (r: Option<(nat, Bytes)>)
    ensures r.Some? ==> |r.value.1| < |b|
  {
    if b == [] then None
    else if b[0] == 0 then Some((0, b[1..]))
    else if b[0] == 1 then
      match DecNat(b[1..])
      case None => None
      case Some(p) => Some((p.0 + 1, p.1))
    else None
  }

  lemma {:induction false} NatRoundTrip(n: nat, rest: Bytes)
    ensures DecNat(EncNat(n) + rest) == Some((n, rest))
  {
    if n > 0 {
      assert (EncNat(n) + rest)[1..] == EncNat(n - 1) + rest;
      NatRoundTrip(n - 1, rest);
    } else {
      assert (EncNat(n) + rest)[1..] == rest;
    }
  }

  /** Integers: a sign byte, then the magnitude. */
  function EncInt(i: int): Bytes
  {
    if i >= 0 then [0] + EncNat(i) else [1] + EncNat(-i - 1)
  }

  function DecInt(b: Bytes): (r: Option<(int, Bytes)>)
    ensures r.Some? ==> |r.value.1| < |b|
  {
    if b == [] || b[0] > 1 then None
    else
      match DecNat(b[1..])
      case None => None
      case Some(p) =>
        var v: int := if b[0] == 0 then p.0 else -(p.0 as int) - 1;
        Some((v, p.1))
  }

  lemma IntRoundTrip(i: int, rest: Bytes)
    ensures DecInt(EncInt(i) + rest) == Some((i, rest))
  {
    var m: nat := if i >= 0 then i else -i - 1;
    assert (EncInt(i) + rest)[1..] == EncNat(m) + rest;
    NatRoundTrip(m, rest);
  }

  /** Strings: the length, then each code point. */
  function EncChars(s: string): Bytes
  {
    if s == [] then [] else EncNat(s[0] as int) + EncChars(s[1..])
  }

  predicate IsCodePoint(n: nat) { n < 0xD800 || 0xE000 <= n < 0x11_0000 }

  function DecChars(b: Bytes, n: nat): (r: Option<(string, Bytes)>)
    ensures r.Some? ==> |r.value.1| <= |b|
    decreases n
  {
    if n == 0 then Some(([], b))
    else
      match DecNat(b)
      case None => None
      case Some(p) =>
        if !IsCodePoint(p.0) then None
        else
          match DecChars(p.1, n - 1)
          case None => None
          case Some(q) => Some(([p.0 as char] + q.0, q.1))
  }

  lemma {:induction false} CharsRoundTrip(s: string, rest: Bytes)
    ensures DecChars(EncChars(s) + rest, |s|) == Some((s, rest))
  {
    if s != [] {
      var n: nat := s[0] as int;
      var after := EncChars(s[1..]) + rest;
      assert EncChars(s) + rest == EncNat(n) + after;
      NatRoundTrip(n, after);
      assert DecNat(EncChars(s) + rest) == Some((n, after));
      assert IsCodePoint(n);
      assert n as char == s[0];
      CharsRoundTrip(s[1..], rest);
      assert DecChars(after, |s| - 1) == Some((s[1..], rest));
      assert [s[0]] + s[1..] == s;
    } else {
      assert EncChars(s) + rest == rest;
    }
  }

  function EncStr(s: string): Bytes
  {
    EncNat(|s|) + EncChars(s)
  }

  function DecStr(b: Bytes): (r: Option<(string, Bytes)>)
    ensures r.Some? ==> |r.value.1| < |b|
  {
    match DecNat(b)
    case None => None
    case Some(p) => DecChars(p.1, p.0)
  }

  lemma StrRoundTrip(s: string, rest: Bytes)
    ensures DecStr(EncStr(s) + rest) == Some((s, rest))
  {
    assert EncStr(s) + rest == EncNat(|s|) + (EncChars(s) + rest);
    NatRoundTrip(|s|, EncChars(s) + rest);
    CharsRoundTrip(s, rest);
  }

  /** The keys of a dict, in some fixed order. */
  ghost function KeySeq(s: set<string>): (r: seq<string>)
    ensures forall k :: k in r <==> k in s
  {
    if s == {} then [] else var k :| k in s; [k] + KeySeq(s - {k})
  }

  /** The code of a value: a tag byte below 8, then its parts. */
  ghost function Enc(j: Json): (r: Bytes)
    ensures |r| > 0 && r[0] < 8
    decreases j, 1
  {
    match j
    case JNull => [0]
    case JBool(b) => [1, if b then 1 else 0]
    case JInt(i) => [2] + EncInt(i)
    case JFloat(f) => [3] + EncInt(f.mantissa) + EncNat(f.exponent)
    case JStr(s) => [4] + EncStr(s)
    case JArr(a) => [5] + EncNat(|a|) + EncList(j, a)
    case JObj(m) =>
      var ks := KeySeq(m.Keys);
      [6] + EncNat(|ks|) + EncPairs(j, m, ks)
    case JColor(c) => [7] + EncNat(Value(c))
  }

  /** The elements of a list, one after another. */
  ghost function EncList(j: Json, a: seq<Json>): Bytes
    requires forall i :: 0 <= i < |a| ==> a[i] < j
    decreases j, 0, |a|
  {
    if a == [] then [] else Enc(a[0]) + EncList(j, a[1..])
  }

  /** The entries of a dict, each key followed by its value. */
  ghost function EncPairs(j: Json, m: map<string, Json>, ks: seq<string>): Bytes
    requires forall k :: k in m ==> m[k] < j
    requires forall k :: k in ks ==> k in m
    decreases j, 0, |ks|
  {
    if ks == [] then [] else EncStr(ks[0]) + Enc(m[ks[0]]) + EncPairs(j, m, ks[1..])
  }

  /** A value whose code has no nested values. */
  function DecScalar(t: byte, rest: Bytes): (r: Option<(Json, Bytes)>)
    ensures r.Some? ==> |r.value.1| <= |rest|
  {
    if t == 0 then Some((JNull, rest))
    else if t == 1 then
      if rest == [] || rest[0] > 1 then None else Some((JBool(rest[0] == 1), rest[1..]))
    else if t == 2 then
      match DecInt(rest)
      case None => None
      case Some(p) => Some((JInt(p.0), p.1))
    else if t == 3 then
      match DecInt(rest)
      case None => None
      case Some(p) =>
        match DecNat(p.1)
        case None => None
        case Some(q) =>
          var d := Decimal(p.0, q.0);
          if d.exponent == 0 || d.mantissa % 10 != 0 then Some((JFloat(d), q.1)) else None
    else if t == 4 then
      match DecStr(rest)
      case None => None
      case Some(p) => Some((JStr(p.0), p.1))
    else if t == 7 then
      match DecNat(rest)
      case None => None
      case Some(p) =>
        match FromValue(p.0)
        case None => None
        case Some(c) => Some((JColor(c), p.1))
    else None
  }

  function Dec(b: Bytes): (r: Option<(Json, Bytes)>)
    ensures r.Some? ==> |r.value.1| < |b|
    decreases |b|, 0
  {
    if b == [] then None
    else if b[0] == 5 then
      match DecNat(b[1..])
      case None => None
      case Some(p) =>
        match DecList(p.1, p.0)
        case None => None
        case Some(q) => Some((JArr(q.0), q.1))
    else if b[0] == 6 then
      match DecNat(b[1..])
      case None => None
      case Some(p) =>
        match DecPairs(p.1, p.0)
        case None => None
        case Some(q) => Some((JObj(q.0), q.1))
    else DecScalar(b[0], b[1..])
  }

  function DecList(b: Bytes, n: nat): (r: Option<(seq<Json>, Bytes)>)
    ensures r.Some? ==> |r.value.1| <= |b|
    decreases |b|, 1, n
  {
    if n == 0 then Some(([], b))
    else
      match Dec(b)
      case None => None
      case Some(p) =>
        match DecList(p.1, n - 1)
        case None => None
        case Some(q) => Some(([p.0] + q.0, q.1))
  }

  function DecPairs(b: Bytes, n: nat): (r: Option<(map<string, Json>, Bytes)>)
    ensures r.Some? ==> |r.value.1| <= |b|
    decreases |b|, 1, n
  {
    if n == 0 then Some((map[], b))
    else
      match DecStr(b)
      case None => None
      case Some(k) =>
        match Dec(k.1)
        case None => None
        case Some(v) =>
          match DecPairs(v.1, n - 1)
          case None => None
          case Some(q) => Some((q.0[k.0 := v.0], q.1))
  }

  lemma {:induction false} JsonRoundTrip(j: Json, rest: Bytes)
    ensures Dec(Enc(j) + rest) == Some((j, rest))
    decreases j, 1
  {
    match j
    case JArr(a) => ArrRoundTrip(j, rest);
    case JObj(m) => ObjRoundTrip(j, rest);
    case _ => ScalarRoundTrip(j, rest);
  }

  lemma {:induction false} ArrRoundTrip(j: Json, rest: Bytes)
    requires j.JArr?
    ensures Dec(Enc(j) + rest) == Some((j, rest))
    decreases j, 0, |j.items| + 1
  {
    var a := j.items;
    var b := Enc(j) + rest;
    assert b[0] == 5;
    assert b[1..] == EncNat(|a|) + (EncList(j, a) + rest);
    NatRoundTrip(|a|, EncList(j, a) + rest);
    ListRoundTrip(j, a, rest);
  }

  lemma {:induction false} ObjRoundTrip(j: Json, rest: Bytes)
    requires j.JObj?
    ensures Dec(Enc(j) + rest) == Some((j, rest))
    decreases j, 0, |KeySeq(j.fields.Keys)| + 1
  {
    var m := j.fields;
    var b := Enc(j) + rest;
    var ks := KeySeq(m.Keys);
    assert b[0] == 6;
    assert b[1..] == EncNat(|ks|) + (EncPairs(j, m, ks) + rest);
    NatRoundTrip(|ks|, EncPairs(j, m, ks) + rest);
    PairsRoundTrip(j, m, ks, rest);
    RestrictAll(m, ks);
  }

  lemma ScalarRoundTrip(j: Json, rest: Bytes)
    requires !j.JArr? && !j.JObj?
    ensures Dec(Enc(j) + rest) == Some((j, rest))
  {
    var b := Enc(j) + rest;
    match j
    case JNull =>
      assert b[1..] == rest;
    case JBool(x) =>
      assert b[1..][1..] == rest;
    case JInt(i) =>
      assert b[1..] == EncInt(i) + rest;
      IntRoundTrip(i, rest);
    case JFloat(f) =>
      FloatRoundTrip(f, rest);
    case JStr(s) =>
      TextRoundTrip(s, rest);
    case JColor(c) =>
      ColorRoundTrip(c, rest);
  }

  lemma FloatRoundTrip(f: Float, rest: Bytes)
    ensures Dec(Enc(JFloat(f)) + rest) == Some((JFloat(f), rest))
  {
    var b := Enc(JFloat(f)) + rest;
    assert b[1..] == EncInt(f.mantissa) + (EncNat(f.exponent) + rest);
    IntRoundTrip(f.mantissa, EncNat(f.exponent) + rest);
    NatRoundTrip(f.exponent, rest);
  }

  lemma TextRoundTrip(s: string, rest: Bytes)
    ensures Dec(Enc(JStr(s)) + rest) == Some((JStr(s), rest))
  {
    var b := Enc(JStr(s)) + rest;
    assert b[1..] == EncStr(s) + rest;
    StrRoundTrip(s, rest);
  }

  lemma ColorRoundTrip(c: LedColor, rest: Bytes)
    ensures Dec(Enc(JColor(c)) + rest) == Some((JColor(c), rest))
  {
    var b := Enc(JColor(c)) + rest;
    assert b[1..] == EncNat(Value(c)) + rest;
    NatRoundTrip(Value(c), rest);
    ValueRoundTrip(c, 0);
  }

  /** The elements of a list, encoded one after another, decode back. */
  lemma {:induction false} ListRoundTrip(j: Json, a: seq<Json>, rest: Bytes)
    requires forall i :: 0 <= i < |a| ==> a[i] < j
    ensures DecList(EncList(j, a) + rest, |a|) == Some((a, rest))
    decreases j, 0, |a|
  {
    if a != [] {
      var after := EncList(j, a[1..]) + rest;
      assert EncList(j, a) + rest == Enc(a[0]) + after;
      JsonRoundTrip(a[0], after);
      ListRoundTrip(j, a[1..], rest);
      assert DecList(after, |a| - 1) == Some((a[1..], rest));
      assert [a[0]] + a[1..] == a;
    } else {
      assert EncList(j, a) + rest == rest;
    }
  }

  /** The entries of a dict decode back to the dict restricted to the
      listed keys. */
  lemma {:induction false} PairsRoundTrip(j: Json, m: map<string, Json>, ks: seq<string>, rest: Bytes)
    requires forall k :: k in m ==> m[k] < j
    requires forall k :: k in ks ==> k in m
    ensures DecPairs(EncPairs(j, m, ks) + rest, |ks|) == Some((map k | k in ks :: m[k], rest))
    decreases j, 0, |ks|
  {
    if ks != [] {
      var k0, v0 := ks[0], m[ks[0]];
      var after := EncPairs(j, m, ks[1..]) + rest;
      var b := EncPairs(j, m, ks) + rest;
      assert b == EncStr(k0) + (Enc(v0) + after);
      StrRoundTrip(k0, Enc(v0) + after);
      JsonRoundTrip(v0, after);
      PairsRoundTrip(j, m, ks[1..], rest);
      var tail := map k | k in ks[1..] :: m[k];
      PairsStep(b, |ks|, k0, Enc(v0) + after, v0, after, tail, rest);
      RestrictCons(m, ks);
    } else {
      assert EncPairs(j, m, ks) + rest == rest;
    }
  }

  /** One entry of a dict decoding, in terms of its parts. */
  lemma PairsStep(b: Bytes, n: nat, k: string, b1: Bytes, v: Json, b2: Bytes,
                  tail: map<string, Json>, rest: Bytes)
    requires n > 0
    requires DecStr(b) == Some((k, b1))
    requires Dec(b1) == Some((v, b2))
    requires DecPairs(b2, n - 1) == Some((tail, rest))
    ensures DecPairs(b, n) == Some((tail[k := v], rest))
  {
  }

  lemma RestrictCons(m: map<string, Json>, ks: seq<string>)
    requires ks != [] && forall k :: k in ks ==> k in m
    ensures (map k | k in ks[1..] :: m[k])[ks[0] := m[ks[0]]] == (map k | k in ks :: m[k])
  {
  }

  lemma RestrictAll(m: map<string, Json>, ks: seq<string>)
    requires forall k :: k in ks <==> k in m
    ensures (map k | k in ks :: m[k]) == m
  {
  }

  /** Base64 stand-in: each byte written as one character. */
  function ByteChars(b: Bytes): (r: string)
    ensures |r| == |b|
  {
    seq(|b|, i requires 0 <= i < |b| => b[i] as int as char)
  }

  function CharBytes(s: string): (r: Option<Bytes>)
    ensures r.Some? ==> |r.value| == |s|
  {
    if forall i :: 0 <= i < |s| ==> s[i] as int < 256
    then Some(seq(|s|, i requires 0 <= i < |s| => s[i] as int as byte))
    else None
  }

  lemma CharsBytesRoundTrip(b: Bytes)
    ensures CharBytes(ByteChars(b)) == Some(b)
  {
    var s := ByteChars(b);
    assert forall i :: 0 <= i < |s| ==> s[i] as int == b[i] as int;
    assert CharBytes(s).value == b;
  }

  /** JSON text of the witness: the code of the value and a closing zero
      byte, so it starts and ends with a byte below 8. */
  ghost function Dump(j: Json): (r: Bytes)
    ensures |r| > 1 && r[0] < 8 && r[|r| - 1] == 0
  {
    Enc(j) + [0]
  }

  function Load(b: Bytes): Option<Json> {
    if b == [] || b[|b| - 1] != 0 then None
    else
      match Dec(b[..|b| - 1])
      case Some(p) => if p.1 == [] then Some(p.0) else None
      case None => None
  }

  lemma LoadDump(j: Json)
    ensures Load(Dump(j)) == Some(j)
  {
    JsonRoundTrip(j, []);
    assert Enc(j) + [] == Enc(j);
    assert Dump(j)[..|Dump(j)| - 1] == Enc(j);
  }

  ghost function Witness(): Codec {
    Codec(j => Dump(j), j => Dump(j), b => Load(b), b => b, b => Some(b),
          b => ByteChars(b), s => CharBytes(s), b => 0)
  }

  /** The inverse laws of the file layer can all hold at once. */
  lemma LawfulCodecExists()
    ensures exists c :: Lawful(c)
  {
    var c := Witness();
    forall j | Serializable(j)
      ensures c.load(c.dumpCompact(j)) == Some(j)
      ensures c.load(c.dumpPretty(j)) == Some(j)
      ensures Strip(c.dumpCompact(j)) == c.dumpCompact(j)
    {
      LoadDump(j);
    }
    forall b: Bytes ensures c.b64decode(c.b64encode(b)) == Some(b) {
      CharsBytesRoundTrip(b);
    }
    assert Lawful(c);
  }
}
