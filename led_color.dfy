/** The twelve LED colours a Helix snapshot can show (helixapi/snapshot.py,
    enum `LEDColor`). */
module LedColors {
  import opened Prelude

  datatype LedColor =
    | Auto | White | Red | DarkOrange | LightOrange | Yellow
    | Green | Turquoise | Blue | Violet | Pink | Off

  /** The enum member's integer value. */
  function Value(c: LedColor): (r: nat)
    ensures r < 12
  {
    match c
    case Auto => 0
    case White => 1
    case Red => 2
    case DarkOrange => 3
    case LightOrange => 4
    case Yellow => 5
    case Green => 6
    case Turquoise => 7
    case Blue => 8
    case Violet => 9
    case Pink => 10
    case Off => 11
  }

  /** `LEDColor(n)`: the member with value `n`, if there is one. */
  function FromValue(n: int): (r: Option<LedColor>)
    ensures r.Some? <==> 0 <= n < 12
  {
    if n == 0 then Some(Auto)
    else if n == 1 then Some(White)
    else if n == 2 then Some(Red)
    else if n == 3 then Some(DarkOrange)
    else if n == 4 then Some(LightOrange)
    else if n == 5 then Some(Yellow)
    else if n == 6 then Some(Green)
    else if n == 7 then Some(Turquoise)
    else if n == 8 then Some(Blue)
    else if n == 9 then Some(Violet)
    else if n == 10 then Some(Pink)
    else if n == 11 then Some(Off)
    else None
  }

  /** The enum member's name, as `str()` shows it after `LEDColor.`. */
  function MemberName(c: LedColor): (r: string)
    ensures r != [] && forall i :: 0 <= i < |r| ==> 'A' <= r[i] <= 'Z' || r[i] == '_'
  {
    match c
    case Auto => "AUTO"
    case White => "WHITE"
    case Red => "RED"
    case DarkOrange => "DARK_ORANGE"
    case LightOrange => "LIGHT_ORANGE"
    case Yellow => "YELLOW"
    case Green => "GREEN"
    case Turquoise => "TURQUOISE"
    case Blue => "BLUE"
    case Violet => "VIOLET"
    case Pink => "PINK"
    case Off => "OFF"
  }

  /** Distinct members have distinct names. */
  lemma MemberNameInjective(a: LedColor, b: LedColor)
    requires MemberName(a) == MemberName(b)
    ensures a == b
  {
    var n := MemberName(a);
    match b
    case Auto => assert n == "AUTO";
    case White => assert n == "WHITE";
    case Red => assert n == "RED";
    case DarkOrange => assert n == "DARK_ORANGE";
    case LightOrange => assert n == "LIGHT_ORANGE";
    case Yellow => assert n == "YELLOW";
    case Green => assert n == "GREEN";
    case Turquoise => assert n == "TURQUOISE";
    case Blue => assert n == "BLUE";
    case Violet => assert n == "VIOLET";
    case Pink => assert n == "PINK";
    case Off => assert n == "OFF";
  }

  /** Values and members correspond one to one: the values are distinct and
      every value in range names exactly one member. */
  lemma ValueRoundTrip(c: LedColor, n: int)
    ensures FromValue(Value(c)) == Some(c)
    ensures FromValue(n).Some? ==> Value(FromValue(n).value) == n
  {
  }
}
