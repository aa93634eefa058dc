/** The in-memory document that every preset, setlist and bundle file is
    loaded into: nested dicts and lists of JSON scalars, addressed by Python
    subscripts `data[k]`.  A JSON number with a fraction or an exponent
    loads as a Python `float`, held here as the decimal that `json.dumps`
    writes for it.  Besides JSON values a document can hold an `LEDColor`
    enum member, which the snapshot colour setter stores as is. */
module JsonDoc {
  import opened Prelude
  import opened PyStr
  import opened LedColors

  /** `10^e`. */
  function Pow10(e: nat): (r: nat)
    ensures r >= 1 && (e > 0 ==> r % 10 == 0)
  {
    if e == 0 then 1 else 10 * Pow10(e - 1)
  }

  /** The decimal `mantissa × 10^-exponent`. */
  datatype Decimal = Decimal(mantissa: int, exponent: nat)

  /** A decimal in its shortest form: no trailing zero in the mantissa
      unless there are no decimal places.  Each number has exactly one such
      form, so two floats are equal exactly when their values are. */
  type Float = d: Decimal | d.exponent == 0 || d.mantissa % 10 != 0 witness Decimal(0, 0)

  /** The number a float stands for. */
  function FloatValue(d: Float): real {
    d.mantissa as real / Pow10(d.exponent) as real
  }

  lemma {:induction false} Pow10Add(a: nat, b: nat)
    ensures Pow10(a + b) == Pow10(a) * Pow10(b)
  {
    if a > 0 {
      Pow10Add(a - 1, b);
    }
  }

  /** Distinct floats stand for distinct numbers. */
  lemma FloatValueInjective(x: Float, y: Float)
    requires FloatValue(x) == FloatValue(y)
    ensures x == y
  {
    if x.exponent <= y.exponent {
      SameValueSameForm(x, y);
    } else {
      SameValueSameForm(y, x);
    }
  }

  lemma SameValueSameForm(x: Float, y: Float)
    requires FloatValue(x) == FloatValue(y) && x.exponent <= y.exponent
    ensures x == y
  {
    var d := y.exponent - x.exponent;
    ScaledMantissa(x.mantissa, y.mantissa, x.exponent, y.exponent);
    if d > 0 {
      TrailingZero(x.mantissa, d);
      assert false;
    }
  }

  /** Equal values with exponents `e1 <= e2`: the second mantissa is the
      first shifted by the difference. */
  lemma ScaledMantissa(a: int, b: int, e1: nat, e2: nat)
    requires e1 <= e2 && a as real / Pow10(e1) as real == b as real / Pow10(e2) as real
    ensures a * Pow10(e2 - e1) == b
  {
    Pow10Add(e1, e2 - e1);
    Rescale(a, b, Pow10(e1), Pow10(e2 - e1), Pow10(e2));
  }

  lemma Rescale(a: int, b: int, p: int, q: int, pq: int)
    requires p > 0 && q > 0 && pq == p * q
    requires a as real / p as real == b as real / pq as real
    ensures a * q == b
  {
    CastMul(p, q);
    CrossMultiply(a as real, b as real, p as real, q as real);
    ScaledInts(a, q, b);
  }

  lemma TrailingZero(a: int, d: nat)
    requires d > 0
    ensures (a * Pow10(d)) % 10 == 0
  {
    var z := a * Pow10(d - 1);
    assert a * Pow10(d) == z * 10;
  }

  lemma CastMul(a: int, b: int)
    ensures (a * b) as real == a as real * b as real
  {
  }

  lemma ScaledInts(a: int, q: int, b: int)
    requires a as real * q as real == b as real
    ensures a * q == b
  {
    CastMul(a, q);
  }

  lemma CrossMultiply(m: real, n: real, p: real, q: real)
    requires p > 0.0 && q > 0.0 && m / p == n / (p * q)
    ensures m * q == n
  {
    var r := m / p;
    assert m == r * p;
    assert n == r * (p * q);
  }

  datatype Json =
    | JNull
    | JBool(b: bool)
    | JInt(i: int)
    | JFloat(f: Float)
    | JStr(s: string)
    | JArr(items: seq<Json>)
    | JObj(fields: map<string, Json>)
    | JColor(color: LedColor)

  /** A Python subscript: a string, an integer or `None` (the value of an
      index the owning object was not given). */
  datatype Key = KStr(name: string) | KInt(n: int) | KNone

  /** Python truthiness of a value (`if not data[key]`). */
  predicate Truthy(j: Json) {
    match j
    case JNull => false
    case JBool(b) => b
    case JInt(i) => i != 0
    case JFloat(f) => f.mantissa != 0
    case JStr(s) => s != ""
    case JArr(a) => |a| > 0
    case JObj(m) => |m| > 0
    case JColor(_) => true
  }

  /** A value `json.dumps` accepts: nothing but JSON inside. */
  predicate Serializable(j: Json) {
    match j
    case JArr(a) => forall i :: 0 <= i < |a| ==> Serializable(a[i])
    case JObj(m) => forall k :: k in m ==> Serializable(m[k])
    case JColor(_) => false
    case _ => true
  }

  /** Keys produced by the path resolver never have a negative integer, so a
      list position has exactly one key naming it. */
  predicate Canonical(k: Key) { !(k.KInt? && k.n < 0) }

  predicate CanonicalPath(p: seq<Key>) { forall i :: 0 <= i < |p| ==> Canonical(p[i]) }

  /** `data[k]`: a dict is looked up by string key (`KeyError` when absent),
      a list by integer with Python's negative indexing (`IndexError` when out
      of range); any other subscript is a `TypeError`. */
  function Child(n: Json, k: Key): (r: Result<Json>)
    ensures r.Ok? ==>
              ((n.JObj? && k.KStr? && k.name in n.fields && r.value == n.fields[k.name])
               || (n.JArr? && k.KInt? && PyIndex(k.n, |n.items|).Some?
                   && r.value == n.items[PyIndex(k.n, |n.items|).value]))
    ensures r == Err(MissingKey) <==> n.JObj? && !(k.KStr? && k.name in n.fields)
    ensures r == Err(IndexOutOfRange) <==> n.JArr? && k.KInt? && PyIndex(k.n, |n.items|).None?
  {
    match n
    case JObj(m) =>
      if k.KStr? && k.name in m then Ok(m[k.name]) else Err(MissingKey)
    case JArr(a) =>
      if !k.KInt? then Err(NotSubscriptable)
      else (match PyIndex(k.n, |a|)
        case Some(p) => Ok(a[p])
        case None => Err(IndexOutOfRange))
    case _ => Err(NotSubscriptable)
  }

  /** `data[k] = v`: a dict takes any string key (adding or replacing it), a
      list replaces an existing position; anything else raises. */
  function SetChild(n: Json, k: Key, v: Json): (r: Result<Json>)
    ensures r.Ok? ==> Truthy(r.value) && r.value.JObj? == n.JObj? && r.value.JArr? == n.JArr?
    ensures r.Ok? <==> (n.JObj? && k.KStr?) || (n.JArr? && k.KInt? && PyIndex(k.n, |n.items|).Some?)
  {
    match n
    case JObj(m) =>
      if k.KStr? then Ok(JObj(m[k.name := v])) else Err(NotSubscriptable)
    case JArr(a) =>
      if !k.KInt? then Err(NotSubscriptable)
      else (match PyIndex(k.n, |a|)
        case Some(p) => Ok(JArr(a[p := v]))
        case None => Err(IndexOutOfRange))
    case _ => Err(NotSubscriptable)
  }

  /** Reading back a slot just written yields the written value. */
  lemma ChildAfterSetChild(n: Json, k: Key, v: Json)
    requires SetChild(n, k, v).Ok?
    ensures Child(SetChild(n, k, v).value, k) == Ok(v)
  {
  }

  /** Writing one slot leaves every other slot as it was. */
  lemma ChildOtherSlot(n: Json, k: Key, v: Json, k2: Key)
    requires SetChild(n, k, v).Ok?
    requires Canonical(k) && Canonical(k2) && k != k2
    ensures Child(SetChild(n, k, v).value, k2) == Child(n, k2)
  {
  }

  /** Writing back the value a slot already holds changes nothing. */
  lemma SetChildSame(n: Json, k: Key)
    requires Child(n, k).Ok?
    ensures SetChild(n, k, Child(n, k).value) == Ok(n)
  {
    match n
    case JObj(m) =>
      assert m[k.name := m[k.name]] == m;
    case JArr(a) =>
      var p := PyIndex(k.n, |a|).value;
      assert a[p := a[p]] == a;
  }

  /** Any slot that can be read can be written. */
  lemma SetChildWhereReadable(n: Json, k: Key, v: Json)
    requires Child(n, k).Ok?
    ensures SetChild(n, k, v).Ok?
  {
  }

  /** A second write to the same slot replaces the first. */
  lemma SetChildTwice(n: Json, k: Key, v: Json, w: Json)
    requires SetChild(n, k, v).Ok?
    ensures SetChild(SetChild(n, k, v).value, k, w) == SetChild(n, k, w)
  {
    match n
    case JObj(m) =>
      assert m[k.name := v][k.name := w] == m[k.name := w];
    case JArr(a) =>
      var p := PyIndex(k.n, |a|).value;
      assert a[p := v][p := w] == a[p := w];
  }

  /** The value reached by following subscripts `p` from `n`. */
  function At(n: Json, p: seq<Key>): Result<Json>
    decreases |p|
  {
    if p == [] then Ok(n)
    else match Child(n, p[0])
      case Err(e) => Err(e)
      case Ok(c) => At(c, p[1..])
  }

  /** `n` with the value at `p` replaced by `v`; the containers on the way
      must exist, the last one receives `v` as `SetChild` does. */
  function Put(n: Json, p: seq<Key>, v: Json): Result<Json>
    decreases |p|
  {
    if p == [] then Ok(v)
    else match Child(n, p[0])
      case Err(e) => if |p| == 1 then SetChild(n, p[0], v) else Err(e)
      case Ok(c) =>
        match Put(c, p[1..], v)
        case Err(e) => Err(e)
        case Ok(c2) => SetChild(n, p[0], c2)
  }

  lemma {:induction false} AtSnoc(n: Json, p: seq<Key>, k: Key)
    ensures At(n, p + [k]) == (match At(n, p) case Err(e) => Err(e) case Ok(m) => Child(m, k))
    decreases |p|
  {
    if p == [] {
      assert [k][1..] == [];
    } else {
      assert (p + [k])[1..] == p[1..] + [k];
      match Child(n, p[0])
      case Err(_) =>
      case Ok(c) => AtSnoc(c, p[1..], k);
    }
  }

  /** Writing below `p` is writing the updated container back at `p`. */
  lemma {:induction false} PutSnoc(n: Json, p: seq<Key>, k: Key, v: Json)
    requires At(n, p).Ok?
    ensures Put(n, p + [k], v) == (match SetChild(At(n, p).value, k, v)
                                   case Err(e) => Err(e)
                                   case Ok(m) => Put(n, p, m))
    decreases |p|
  {
    if p == [] {
      assert [k][1..] == [];
    } else {
      assert (p + [k])[1..] == p[1..] + [k];
      var c := Child(n, p[0]).value;
      PutSnoc(c, p[1..], k, v);
      match SetChild(At(n, p).value, k, v)
      case Err(_) =>
      case Ok(m) =>
        AtOkPutOk(c, p[1..], m);
    }
  }

  /** Every readable location can be written. */
  lemma {:induction false} AtOkPutOk(n: Json, p: seq<Key>, v: Json)
    requires At(n, p).Ok?
    ensures Put(n, p, v).Ok?
    decreases |p|
  {
    if p != [] {
      var c := Child(n, p[0]).value;
      AtOkPutOk(c, p[1..], v);
      SetChildWhereReadable(n, p[0], Put(c, p[1..], v).value);
    }
  }

  /** Writing back what is already there changes nothing. */
  lemma {:induction false} PutSame(n: Json, p: seq<Key>)
    requires At(n, p).Ok?
    ensures Put(n, p, At(n, p).value) == Ok(n)
    decreases |p|
  {
    if p != [] {
      var c := Child(n, p[0]).value;
      PutSame(c, p[1..]);
      SetChildSame(n, p[0]);
    }
  }

  /** A second write to the same location replaces the first. */
  lemma {:induction false} PutTwice(n: Json, p: seq<Key>, v: Json, w: Json)
    requires Put(n, p, v).Ok?
    ensures Put(Put(n, p, v).value, p, w) == Put(n, p, w)
    decreases |p|
  {
    if p != [] {
      var n1 := Put(n, p, v).value;
      match Child(n, p[0])
      case Err(_) =>
        assert |p| == 1 && n1 == SetChild(n, p[0], v).value;
        SetChildTwice(n, p[0], v, w);
        ChildAfterSetChild(n, p[0], v);
        assert Put(n1, p, w) == SetChild(n1, p[0], w) by { assert p[1..] == []; }
        assert Put(n, p, w) == SetChild(n, p[0], w);
        assert Put(n1, p, w) == Put(n, p, w);
      case Ok(c) =>
        var c1 := Put(c, p[1..], v).value;
        assert n1 == SetChild(n, p[0], c1).value;
        ChildAfterSetChild(n, p[0], c1);
        PutTwice(c, p[1..], v, w);
        match Put(c, p[1..], w)
        case Err(e) =>
          assert Put(n1, p, w) == Err(e);
          assert Put(n, p, w) == Err(e);
        case Ok(c2) =>
          assert Put(n1, p, w) == SetChild(n1, p[0], c2);
          assert Put(n, p, w) == SetChild(n, p[0], c2);
          SetChildTwice(n, p[0], c1, c2);
          assert Put(n1, p, w) == Put(n, p, w);
    } else {
      assert Put(n, p, v) == Ok(v) && Put(v, p, w) == Ok(w) && Put(n, p, w) == Ok(w);
    }
  }

  /** What was written at `p` is what is read back at `p`. */
  lemma {:induction false} AtAfterPut(n: Json, p: seq<Key>, v: Json)
    requires Put(n, p, v).Ok?
    ensures At(Put(n, p, v).value, p) == Ok(v)
    decreases |p|
  {
    if p != [] {
      match Child(n, p[0])
      case Err(_) =>
        ChildAfterSetChild(n, p[0], v);
        assert p[1..] == [];
      case Ok(c) =>
        AtAfterPut(c, p[1..], v);
        ChildAfterSetChild(n, p[0], Put(c, p[1..], v).value);
    }
  }

  /** `p` and `q` part ways: some position holds different keys with equal
      prefixes before it. */
  predicate Diverge(p: seq<Key>, q: seq<Key>) {
    exists i :: 0 <= i < |p| && i < |q| && p[i] != q[i] && p[..i] == q[..i]
  }

  /** A write at `p` leaves every location off `p` unchanged. */
  lemma {:induction false} PutFrame(n: Json, p: seq<Key>, v: Json, q: seq<Key>)
    requires Put(n, p, v).Ok?
    requires CanonicalPath(p) && CanonicalPath(q) && Diverge(p, q)
    ensures At(Put(n, p, v).value, q) == At(n, q)
    decreases |p|
  {
    var i :| 0 <= i < |p| && i < |q| && p[i] != q[i] && p[..i] == q[..i];
    var n1 := Put(n, p, v).value;
    if i == 0 {
      match Child(n, p[0])
      case Err(_) =>
        ChildOtherSlot(n, p[0], v, q[0]);
      case Ok(c) =>
        ChildOtherSlot(n, p[0], Put(c, p[1..], v).value, q[0]);
    } else {
      assert p[0] == q[0] by { assert p[..i][0] == q[..i][0]; }
      var c := Child(n, p[0]).value;
      var c1 := Put(c, p[1..], v).value;
      ChildAfterSetChild(n, p[0], c1);
      assert Diverge(p[1..], q[1..]) by {
        assert p[1..][i-1] != q[1..][i-1];
        assert p[1..][..i-1] == p[..i][1..];
        assert q[1..][..i-1] == q[..i][1..];
      }
      PutFrame(c, p[1..], v, q[1..]);
    }
  }
}
