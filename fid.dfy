/**
 * Motr fids (container, key): the text form printed by Fid.__repr__, the
 * parser Fid.parse, the null test and structural equality.
 */
module Fids {
  import opened Wrappers
  import Numerals
  import Strings

  /** A fid. Python ints are unbounded, so the fields are naturals with no 64-bit limit. */
  datatype Fid = Fid(container: nat, key: nat)

  /** The ValueError Fid.parse raises. */
  datatype ParseError =
    | InvalidLiteral(text: string)  // int(text, 16) rejected one of the halves
    | NotEnoughValues               // no ':' in the input: the unpack found one value

  /** The right operand of ==: a Fid or an object of some other type. */
  datatype Operand = AFid(fid: Fid) | NotAFid

  /** Python's int(s, 16) on the simple grammar: an optional 0x or 0X prefix, then hex digits of either case. */
  function ParseHex(s: string): (r: Option<nat>)
    ensures r.Some? <==>
      var digits := if |s| >= 2 && s[0] == '0' && s[1] in "xX" then s[2..] else s;
      |digits| > 0 && forall i :: 0 <= i < |digits| ==> Numerals.IsDigit(digits[i], 16)
    ensures r.Some? ==>
      var digits := if |s| >= 2 && s[0] == '0' && s[1] in "xX" then s[2..] else s;
      Numerals.Format(r.value, 16) == Numerals.Canonical(digits)
  {
    var digits := if |s| >= 2 && s[0] == '0' && s[1] in "xX" then s[2..] else s;
    Numerals.ValueCanonical(digits, 16);
    Numerals.Value(digits, 16)
  }

  /** '0x' followed by the lower-case hex digits of n, as f'0x{n:x}' prints it. */
  function PrefixedHex(n: nat): (s: string)
    ensures ':' !in s
  {
    "0x" + Numerals.Format(n, 16)
  }

  lemma ParseHexOfPrefixed(n: nat)
    ensures ParseHex(PrefixedHex(n)) == Some(n)
  {
    var s := PrefixedHex(n);
    assert s[2..] == Numerals.Format(n, 16);
    Numerals.ValueOfFormat(n, 16);
  }

  /**
   * Fid.__repr__: '0x<container>:0x<key>' in lower-case hex. The text
   * splits at its first ':' into the two halves, which is where Fid.parse
   * cuts it.
   */
  function Repr(f: Fid): (s: string)
    ensures Strings.SplitOnce(s, ':') == [PrefixedHex(f.container), PrefixedHex(f.key)]
  {
    var x, y := PrefixedHex(f.container), PrefixedHex(f.key);
    assert x + ":" + y == x + [':'] + y;
    Strings.SplitOnceOfJoined(x, y, ':');
    x + ":" + y
  }

  /**
   * Fid.parse: split at the first ':' and read each half with int(_, 16).
   * Every half is converted before the result is unpacked into two values,
   * so a bad half is reported even when the ':' is missing.
   */
  function Parse(val: string): (r: Result<Fid, ParseError>)
    ensures ':' !in val ==> r.Failure?
  {
    var parts := Strings.SplitOnce(val, ':');
    match ParseHex(parts[0])
    case None => Failure(InvalidLiteral(parts[0]))
    case Some(c) =>
      if |parts| == 1 then Failure(NotEnoughValues)
      else
        match ParseHex(parts[1])
        case None => Failure(InvalidLiteral(parts[1]))
        case Some(k) => Success(Fid(c, k))
  }

  /** Without a ':' parsing fails: on the hex conversion if the text is not hex, else on the unpack. */
  lemma ParseWithoutColon(val: string)
    requires ':' !in val
    ensures Parse(val) == if ParseHex(val).None? then Failure(InvalidLiteral(val)) else Failure(NotEnoughValues)
  {
  }

  /**
   * With a ':' (the first one right after x), the fid is read from the two
   * sides; the left side is reported first when both are malformed.
   */
  lemma ParseAtFirstColon(x: string, y: string)
    requires ':' !in x
    ensures Parse(x + ":" + y) ==
      if ParseHex(x).None? then Failure(InvalidLiteral(x))
      else if ParseHex(y).None? then Failure(InvalidLiteral(y))
      else Success(Fid(ParseHex(x).value, ParseHex(y).value))
  {
    assert x + ":" + y == x + [':'] + y;
    Strings.SplitOnceOfJoined(x, y, ':');
  }

  /** Parsing the printed form of a fid gives the same fid back. */
  lemma ParseRepr(f: Fid)
    ensures Parse(Repr(f)) == Success(f)
  {
    ParseAtFirstColon(PrefixedHex(f.container), PrefixedHex(f.key));
    ParseHexOfPrefixed(f.container);
    ParseHexOfPrefixed(f.key);
  }

  /** The printed form identifies the fid. */
  lemma ReprInjective(a: Fid, b: Fid)
    requires Repr(a) == Repr(b)
    ensures a == b
  {
    ParseRepr(a);
    ParseRepr(b);
  }

  /** Fid.is_null: both fields are zero, that is the fid prints as 0x0:0x0. */
  function IsNull(f: Fid): (r: bool)
    ensures r <==> Repr(f) == "0x0:0x0"
  {
    ZeroRepr(f);
    f.container == 0 && f.key == 0
  }

  /** Only the zero fid prints as 0x0:0x0. */
  lemma ZeroRepr(f: Fid)
    ensures f == Fid(0, 0) <==> Repr(f) == "0x0:0x0"
  {
    assert Repr(Fid(0, 0)) == "0x0:0x0";
    if Repr(f) == "0x0:0x0" {
      ReprInjective(f, Fid(0, 0));
    }
  }

  /** Fid.__eq__: the other operand is a Fid with the same container and key. */
  function Equals(self: Fid, other: Operand): (r: bool)
    ensures r <==> other == AFid(self)
  {
    other.AFid? && other.fid.container == self.container && other.fid.key == self.key
  }

  /** Fid.get_copy: a new fid with the same fields. */
  function GetCopy(f: Fid): (r: Fid)
    ensures Equals(f, AFid(r)) && Equals(r, AFid(f))
    ensures Repr(r) == Repr(f)
  {
    Fid(f.container, f.key)
  }
}
