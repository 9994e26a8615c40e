/** The `data-id` attribute of a product card: written by the template literal
    `${product.id}` and read back by `parseInt(...)` (radix not given). */
module DataId {

  import opened Optional

  /** ECMAScript white space and line terminators, which `parseInt` skips. */
  predicate IsSpace(c: char) {
    var k := c as int;
    || 0x09 <= k <= 0x0D || k == 0x20 || k == 0xA0 || k == 0x1680
    || 0x2000 <= k <= 0x200A || k == 0x2028 || k == 0x2029 || k == 0x202F
    || k == 0x205F || k == 0x3000 || k == 0xFEFF
  }

  predicate IsAlnumDigit(c: char) {
    '0' <= c <= '9' || 'a' <= c <= 'z' || 'A' <= c <= 'Z'
  }

  /** The value of a digit character in any radix up to 36. */
  function DigitValue(c: char): (v: nat)
    requires IsAlnumDigit(c)
    ensures v < 36
  {
    if '0' <= c <= '9' then c as int - '0' as int
    else if 'a' <= c <= 'z' then c as int - 'a' as int + 10
    else c as int - 'A' as int + 10
  }

  predicate IsDigitIn(c: char, base: nat) {
    IsAlnumDigit(c) && DigitValue(c) < base
  }

  function TrimStart(s: string): (r: string)
    ensures |r| <= |s| && r == s[|s| - |r|..]
    ensures r == [] || !IsSpace(r[0])
    ensures forall i :: 0 <= i < |s| - |r| ==> IsSpace(s[i])
  {
    if s != [] && IsSpace(s[0]) then TrimStart(s[1..]) else s
  }

  /** The longest prefix of `s` made of digits of the given radix. */
  function DigitRun(s: string, base: nat): (r: string)
    ensures |r| <= |s| && r == s[..|r|]
    ensures forall i :: 0 <= i < |r| ==> IsDigitIn(r[i], base)
    ensures |r| == |s| || !IsDigitIn(s[|r|], base)
  {
    if s != [] && IsDigitIn(s[0], base) then [s[0]] + DigitRun(s[1..], base) else []
  }

  /** The number a run of digits denotes, most significant digit first. */
  function Value(ds: string, base: nat): nat
    requires forall i :: 0 <= i < |ds| ==> IsDigitIn(ds[i], base)
  {
    if ds == [] then 0
    else
      assert IsDigitIn(ds[|ds| - 1], base);
      Value(ds[..|ds| - 1], base) * base + DigitValue(ds[|ds| - 1])
  }

  /** `parseInt(s)`: skip leading white space, then read a signed number.
      No digits gives `NaN`, here `None`. */
  function ParseInt(s: string): (r: Option<int>)
    ensures var t := TrimStart(s);
      t == [] || !(IsDigitIn(t[0], 10) || t[0] == '-' || t[0] == '+') ==> r.None?
    ensures var t := TrimStart(s);
      t != [] && '1' <= t[0] <= '9' ==> r == Some(Value(DigitRun(t, 10), 10))
  {
    ParseSigned(TrimStart(s))
  }

  /** An optional sign, then the magnitude. */
  function ParseSigned(t: string): Option<int> {
    if t != [] && t[0] == '-' then
      match ParseMagnitude(t[1..])
      case None => None
      case Some(v) => Some(-v)
    else if t != [] && t[0] == '+' then ParseMagnitude(t[1..])
    else ParseMagnitude(t)
  }

  /** After the sign: a `0x`/`0X` prefix selects radix 16, otherwise radix 10;
      the longest run of digits is read and the rest ignored. */
  function ParseMagnitude(u: string): Option<int> {
    var hex := |u| >= 2 && u[0] == '0' && (u[1] == 'x' || u[1] == 'X');
    var base := if hex then 16 else 10;
    var ds := DigitRun(if hex then u[2..] else u, base);
    if ds == [] then None else Some(Value(ds, base))
  }

  function DigitChar(d: nat): (c: char)
    requires d < 10
    ensures IsDigitIn(c, 10) && DigitValue(c) == d
  {
    ('0' as int + d) as char
  }

  /** The decimal numeral of a natural number, without leading zeros. */
  function Decimal(n: nat): (r: string)
    ensures r != []
    ensures forall i :: 0 <= i < |r| ==> IsDigitIn(r[i], 10)
    ensures Value(r, 10) == n
    ensures r[0] == '0' ==> n == 0 && |r| == 1
  {
    if n < 10 then [DigitChar(n)]
    else
      var r := Decimal(n / 10) + [DigitChar(n % 10)];
      assert r[..|r| - 1] == Decimal(n / 10);
      r
  }

  /** `${n}` for an integer `n`. */
  function RenderInt(n: int): (r: string)
    ensures r != [] && (r[0] == '-' || IsDigitIn(r[0], 10))
    ensures r[0] == '-' <==> n < 0
    ensures var digits := if n < 0 then r[1..] else r;
      && digits != []
      && (forall i :: 0 <= i < |digits| ==> IsDigitIn(digits[i], 10))
      && Value(digits, 10) == (if n < 0 then -n else n)
  {
    if n < 0 then "-" + Decimal(-n) else Decimal(n)
  }

  lemma ParseDecimal(m: nat)
    ensures ParseMagnitude(Decimal(m)) == Some(m)
  {
    var u := Decimal(m);
    assert DigitRun(u, 10) == u;
  }

  lemma TrimRendered(n: int)
    ensures TrimStart(RenderInt(n)) == RenderInt(n)
  {
    var r := RenderInt(n);
    assert !IsSpace(r[0]);
  }

  /** Reading back the id written into a card yields that id. */
  lemma ParseRenderedInt(n: int)
    ensures ParseInt(RenderInt(n)) == Some(n)
  {
    TrimRendered(n);
    var r := RenderInt(n);
    if n < 0 {
      ParseDecimal(-n);
      assert r[0] == '-' && r[1..] == Decimal(-n);
    } else {
      ParseDecimal(n);
      assert r == Decimal(n) && r[0] != '-' && r[0] != '+';
    }
  }

  /** Leading white space does not change what `parseInt` reads. */
  lemma {:induction false} ParseSkipsSpace(ws: string, s: string)
    requires forall i :: 0 <= i < |ws| ==> IsSpace(ws[i])
    ensures ParseInt(ws + s) == ParseInt(s)
  {
    TrimSpacePrefix(ws, s);
  }

  lemma {:induction false} TrimSpacePrefix(ws: string, s: string)
    requires forall i :: 0 <= i < |ws| ==> IsSpace(ws[i])
    ensures TrimStart(ws + s) == TrimStart(s)
  {
    if ws == [] {
      assert ws + s == s;
    } else {
      assert (ws + s)[1..] == ws[1..] + s;
      TrimSpacePrefix(ws[1..], s);
    }
  }
}
