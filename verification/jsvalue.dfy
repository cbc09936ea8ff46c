/** JavaScript values as the extension's scripts see them, with the handful of
    language rules the scripts lean on: truthiness and `||`, property access
    that throws on `undefined`/`null`, optional chaining, template-literal
    stringification and `parseInt`.  Numbers are integral. */
module JsValue {

  datatype Option<+T> = None | Some(value: T)

  /** A value a script can hold.  `Undef` is `undefined`, the value of a
      missing property. */
  datatype Js =
    | Undef
    | Null
    | Bool(b: bool)
    | Num(n: int)
    | Str(s: string)
    | Arr(items: seq<Js>)
    | Obj(fields: map<string, Js>)

  /** What a script throws. */
  datatype JsError =
    | TypeError
    | Raised(message: string)

  datatype Result<+T> = Ok(value: T) | Err(error: JsError)

  /** `undefined`, `null`, `false`, `0` and `''` are falsy; everything else is truthy. */
  predicate Truthy(v: Js)
  {
    match v
    case Undef => false
    case Null => false
    case Bool(b) => b
    case Num(n) => n != 0
    case Str(s) => s != ""
    case Arr(_) => true
    case Obj(_) => true
  }

  /** `a || b` */
  function Or(a: Js, b: Js): Js
  {
    if Truthy(a) then a else b
  }

  /** `v.key`.  Reading a property of `undefined` or `null` is a TypeError;
      arrays and strings expose `length`; other primitives have no own fields. */
  function Get(v: Js, key: string): Result<Js>
  {
    match v
    case Undef => Err(TypeError)
    case Null => Err(TypeError)
    case Obj(m) => Ok(if key in m then m[key] else Undef)
    case Arr(items) => Ok(if key == "length" then Num(|items|) else Undef)
    case Str(s) => Ok(if key == "length" then Num(|s|) else Undef)
    case Bool(_) => Ok(Undef)
    case Num(_) => Ok(Undef)
  }

  /** `v?.key`: `undefined` when `v` is `undefined` or `null`. */
  function GetOpt(v: Js, key: string): Js
  {
    match Get(v, key)
    case Ok(x) => x
    case Err(_) => Undef
  }

  /** `v.key` where `v` is known to be truthy, so the read cannot throw. */
  function Field(v: Js, key: string): Js
  {
    GetOpt(v, key)
  }

  /** `undefined` or `null`, the values whose properties cannot be read. */
  predicate Nullish(v: Js)
  {
    v.Undef? || v.Null?
  }

  lemma GetThrowsExactlyOnNullish(v: Js, key: string)
    ensures Get(v, key).Err? <==> (v.Undef? || v.Null?)
    ensures Truthy(v) ==> Get(v, key) == Ok(Field(v, key))
  {
  }

  /** `xs.map(f)` where `f` may throw: the first throw aborts the map. */
  function MapResult<T, U>(xs: seq<T>, f: T -> Result<U>): (r: Result<seq<U>>)
    ensures r.Ok? <==> forall k :: 0 <= k < |xs| ==> f(xs[k]).Ok?
    ensures r.Ok? ==> |r.value| == |xs| && forall k :: 0 <= k < |xs| ==> r.value[k] == f(xs[k]).value
  {
    if |xs| == 0 then Ok([])
    else
      match f(xs[0])
      case Err(e) => Err(e)
      case Ok(y) =>
        match MapResult(xs[1..], f)
        case Err(e) =>
          assert exists k :: 0 <= k < |xs| - 1 && !f(xs[1..][k]).Ok?;
          Err(e)
        case Ok(rest) =>
          assert forall k :: 1 <= k < |xs| ==> xs[k] == xs[1..][k - 1];
          Ok([y] + rest)
  }

  /** `xs.forEach(x => out.push(...f(x)))` where `f` may throw: the
      results of `f` one after the other, or the first throw. */
  function FlatMapResult<T, U>(xs: seq<T>, f: T -> Result<seq<U>>): (r: Result<seq<U>>)
    ensures r.Ok? <==> forall k :: 0 <= k < |xs| ==> f(xs[k]).Ok?
  {
    if |xs| == 0 then Ok([])
    else
      match f(xs[0])
      case Err(e) => Err(e)
      case Ok(here) =>
        match FlatMapResult(xs[1..], f)
        case Err(e) =>
          assert exists k :: 0 <= k < |xs| - 1 && !f(xs[1..][k]).Ok?;
          Err(e)
        case Ok(rest) =>
          assert forall k :: 1 <= k < |xs| ==> xs[k] == xs[1..][k - 1];
          Ok(here + rest)
  }

  /** The results over two lists one after the other are the results over
      the first followed by those over the second. */
  lemma {:induction false} FlatMapAppend<T, U>(a: seq<T>, b: seq<T>, f: T -> Result<seq<U>>)
    requires FlatMapResult(a + b, f).Ok?
    ensures FlatMapResult(a, f).Ok? && FlatMapResult(b, f).Ok?
    ensures FlatMapResult(a + b, f).value == FlatMapResult(a, f).value + FlatMapResult(b, f).value
    decreases |a|
  {
    assert forall k :: 0 <= k < |a| ==> (a + b)[k] == a[k];
    assert forall k :: 0 <= k < |b| ==> (a + b)[|a| + k] == b[k];
    if |a| == 0 {
      assert a + b == b;
    } else {
      assert (a + b)[0] == a[0];
      assert (a + b)[1..] == a[1..] + b;
      FlatMapAppend(a[1..], b, f);
    }
  }

  /** The results for element `k` sit between those for the elements
      before it and those for the elements after it. */
  lemma FlatMapSplit<T, U>(xs: seq<T>, f: T -> Result<seq<U>>, k: nat)
    requires FlatMapResult(xs, f).Ok? && k < |xs|
    ensures f(xs[k]).Ok? && FlatMapResult(xs[..k], f).Ok? && FlatMapResult(xs[k + 1..], f).Ok?
    ensures FlatMapResult(xs, f).value
            == FlatMapResult(xs[..k], f).value + f(xs[k]).value + FlatMapResult(xs[k + 1..], f).value
  {
    assert xs == xs[..k] + ([xs[k]] + xs[k + 1..]);
    FlatMapAppend(xs[..k], [xs[k]] + xs[k + 1..], f);
    FlatMapAppend([xs[k]], xs[k + 1..], f);
    assert [xs[k]][1..] == [];
  }

  // ---------------------------------------------------------------------
  // Decimal rendering and parsing

  predicate IsDigit(c: char)
  {
    '0' <= c <= '9'
  }

  predicate AllDigits(s: string)
  {
    forall i :: 0 <= i < |s| ==> IsDigit(s[i])
  }

  function DigitChar(d: nat): char
    requires d < 10
  {
    "0123456789"[d]
  }

  function DigitValue(c: char): nat
    requires IsDigit(c)
  {
    (c as int - '0' as int) as nat
  }

  /** The decimal digits of `n`, most significant first, without leading zeros. */
  function NatToString(n: nat): (r: string)
    ensures |r| > 0 && AllDigits(r)
    ensures n >= 10 ==> r[0] != '0'
  {
    if n < 10 then [DigitChar(n)] else NatToString(n / 10) + [DigitChar(n % 10)]
  }

  /** `String(i)` for an integral number. */
  function IntToString(i: int): string
  {
    if i < 0 then "-" + NatToString(-i) else NatToString(i)
  }

  /** The number a run of decimal digits denotes. */
  function DigitsValue(s: string): nat
    requires AllDigits(s)
  {
    if |s| == 0 then 0 else DigitsValue(s[..|s| - 1]) * 10 + DigitValue(s[|s| - 1])
  }

  lemma {:induction false} DigitsValueOfNatToString(n: nat)
    ensures DigitsValue(NatToString(n)) == n
  {
    var r := NatToString(n);
    if n >= 10 {
      DigitsValueOfNatToString(n / 10);
      assert r[..|r| - 1] == NatToString(n / 10);
    }
  }

  /** Rendering a natural number in decimal loses nothing. */
  lemma NatToStringInjective(a: nat, b: nat)
    ensures NatToString(a) == NatToString(b) <==> a == b
  {
    if NatToString(a) == NatToString(b) {
      DigitsValueOfNatToString(a);
      DigitsValueOfNatToString(b);
    }
  }

  /** The length of the run of digits at the front of `s`. */
  function DigitRun(s: string): (k: nat)
    ensures k <= |s| && AllDigits(s[..k])
    ensures k < |s| ==> !IsDigit(s[k])
  {
    if |s| > 0 && IsDigit(s[0]) then
      var k := 1 + DigitRun(s[1..]);
      assert s[..k] == [s[0]] + s[1..][..k - 1];
      k
    else 0
  }

  lemma {:induction false} DigitRunOfDigits(s: string)
    requires AllDigits(s)
    ensures DigitRun(s) == |s|
  {
    if |s| > 0 {
      DigitRunOfDigits(s[1..]);
    }
  }

  /** The white space `parseInt` skips before the number: the WhiteSpace
      code points (tab, vertical tab, form feed, space, no-break space, the
      byte order mark and the space separators) and the LineTerminator code
      points of sections 12.2 and 12.3 of ECMA-262. */
  predicate IsSpace(c: char)
  {
    c == '\t' || c == '\U{000B}' || c == '\U{000C}' || c == ' ' || c == '\U{00A0}' || c == '\U{FEFF}'
    || c == '\U{1680}' || ('\U{2000}' <= c <= '\U{200A}') || c == '\U{202F}' || c == '\U{205F}'
    || c == '\U{3000}'
    || c == '\n' || c == '\r' || c == '\U{2028}' || c == '\U{2029}'
  }

  function TrimStart(s: string): (r: string)
    ensures |r| <= |s| && (|r| > 0 ==> !IsSpace(r[0]))
  {
    if |s| > 0 && IsSpace(s[0]) then TrimStart(s[1..]) else s
  }

  predicate IsHexDigit(c: char)
  {
    IsDigit(c) || 'a' <= c <= 'f' || 'A' <= c <= 'F'
  }

  predicate AllHexDigits(s: string)
  {
    forall i :: 0 <= i < |s| ==> IsHexDigit(s[i])
  }

  function HexDigitValue(c: char): (d: nat)
    requires IsHexDigit(c)
    ensures d < 16
  {
    if IsDigit(c) then DigitValue(c)
    else if 'a' <= c <= 'f' then (c as int - 'a' as int + 10) as nat
    else (c as int - 'A' as int + 10) as nat
  }

  /** The number a run of hexadecimal digits denotes. */
  function HexValue(s: string): nat
    requires AllHexDigits(s)
  {
    if |s| == 0 then 0 else HexValue(s[..|s| - 1]) * 16 + HexDigitValue(s[|s| - 1])
  }

  /** The length of the run of hexadecimal digits at the front of `s`. */
  function HexRun(s: string): (k: nat)
    ensures k <= |s| && AllHexDigits(s[..k])
    ensures k < |s| ==> !IsHexDigit(s[k])
  {
    if |s| > 0 && IsHexDigit(s[0]) then
      var k := 1 + HexRun(s[1..]);
      assert s[..k] == [s[0]] + s[1..][..k - 1];
      k
    else 0
  }

  /** `0x` or `0X`, which switches the default radix to 16. */
  predicate HasHexPrefix(u: string)
  {
    |u| >= 2 && u[0] == '0' && (u[1] == 'x' || u[1] == 'X')
  }

  /** What follows the white space and the sign. */
  function Unsigned(s: string): string
  {
    var t := TrimStart(s);
    if |t| > 0 && (t[0] == '-' || t[0] == '+') then t[1..] else t
  }

  /** `parseInt(s)` with the default radix (section 19.2.5 of ECMA-262):
      leading white space, an optional sign, an optional `0x`/`0X` prefix
      that selects base 16, then the longest run of digits of the base;
      `None` is NaN. */
  function ParseIntString(s: string): (r: Option<int>)
    ensures var u := Unsigned(s);
            r.None? <==> if HasHexPrefix(u) then |u| == 2 || !IsHexDigit(u[2]) else |u| == 0 || !IsDigit(u[0])
  {
    var t := TrimStart(s);
    var negative := |t| > 0 && t[0] == '-';
    var u := Unsigned(s);
    if HasHexPrefix(u) then
      var v := u[2..];
      var k := HexRun(v);
      if k == 0 then None
      else
        var m: int := HexValue(v[..k]);
        Some(if negative then -m else m)
    else
      var k := DigitRun(u);
      if k == 0 then None
      else
        var m: int := DigitsValue(u[..k]);
        Some(if negative then -m else m)
  }

  /** An ideographic space before the digits is skipped. */
  lemma ParseIntSkipsWideSpace()
    ensures ParseIntString("\U{3000}2") == Some(2)
  {
    var a := "\U{3000}2";
    assert IsSpace(a[0]);
    assert a[1..] == "2";
    assert TrimStart(a) == "2";
    assert Unsigned(a) == "2";
    assert DigitRun("2") == 1;
    assert "2"[..1] == "2";
  }

  /** `0x` selects base 16; without digits after it the result is NaN. */
  lemma ParseIntReadsHex()
    ensures ParseIntString("0x1A") == Some(26)
    ensures ParseIntString("0x") == None
  {
    var h := "0x1A";
    assert TrimStart(h) == h;
    assert Unsigned(h) == h;
    assert h[2..] == "1A";
    assert HexRun("1A") == 2 by {
      assert "1A"[1..] == "A";
      assert HexRun("A") == 1 by { assert "A"[1..] == ""; }
    }
    assert "1A"[..2] == "1A";
    assert HexValue("1A") == 26 by { assert "1A"[..1] == "1"; assert "1"[..0] == ""; }
    assert TrimStart("0x") == "0x";
    assert Unsigned("0x") == "0x";
  }

  /** The sign comes before the prefix, in either case of `x`. */
  lemma ParseIntReadsNegativeHex()
    ensures ParseIntString("-0Xff") == Some(-255)
  {
    var n := "-0Xff";
    assert TrimStart(n) == n;
    assert Unsigned(n) == "0Xff";
    assert "0Xff"[2..] == "ff";
    assert HexRun("ff") == 2 by {
      assert "ff"[1..] == "f";
      assert HexRun("f") == 1 by { assert "f"[1..] == ""; }
    }
    assert "ff"[..2] == "ff";
    assert HexValue("ff") == 255 by { assert "ff"[..1] == "f"; assert "f"[..0] == ""; }
  }

  /** `String(v)` and `${v}`. */
  function JsString(v: Js): string
    decreases v, 2, 0
  {
    match v
    case Undef => "undefined"
    case Null => "null"
    case Bool(b) => if b then "true" else "false"
    case Num(n) => IntToString(n)
    case Str(s) => s
    case Arr(items) => JoinFrom(v, 0)
    case Obj(_) => "[object Object]"
  }

  /** `Array.prototype.join` with ',' of the elements of array `v` from `i`;
      `undefined` and `null` elements render as ''. */
  function JoinFrom(v: Js, i: nat): string
    requires v.Arr?
    decreases v, 1, |v.items| - i
  {
    if i >= |v.items| then ""
    else
      var e := v.items[i];
      var piece := if e.Undef? || e.Null? then "" else JsString(e);
      if i + 1 == |v.items| then piece else piece + "," + JoinFrom(v, i + 1)
  }

  /** How an element of an array is written by `join`. */
  function JoinCell(v: Js): string
  {
    if v.Undef? || v.Null? then "" else JsString(v)
  }

  /** `parseInt(v)`: the argument is converted to a string first. */
  function ParseInt(v: Js): Option<int>
  {
    ParseIntString(JsString(v))
  }

  /** `parseInt(v) || 0`: NaN and 0 both give 0. */
  function ParseIntOr0(v: Js): int
  {
    match ParseInt(v)
    case None => 0
    case Some(n) => n
  }

  /** Parsing a rendered integer gives the integer back. */
  lemma ParseIntOfIntToString(i: int)
    ensures ParseIntString(IntToString(i)) == Some(i)
  {
    var s := IntToString(i);
    var m: nat := if i < 0 then -i else i;
    var digits := NatToString(m);
    DigitRunOfDigits(digits);
    DigitsValueOfNatToString(m);
    assert digits[..|digits|] == digits;
    assert !HasHexPrefix(digits) by {
      if |digits| >= 2 {
        assert IsDigit(digits[1]);
      }
    }
    if i < 0 {
      assert s == "-" + digits;
      assert TrimStart(s) == s;
      assert s[1..] == digits;
      assert Unsigned(s) == digits;
    } else {
      assert TrimStart(s) == s;
      assert Unsigned(s) == digits;
    }
  }

  /** `parseInt` of a number returns the number. */
  lemma ParseIntOfNum(n: int)
    ensures ParseInt(Num(n)) == Some(n)
    ensures ParseIntOr0(Num(n)) == n
  {
    ParseIntOfIntToString(n);
  }

  function TrimEnd(s: string): (r: string)
    ensures |r| <= |s| && (|r| > 0 ==> !IsSpace(r[|r| - 1]))
    ensures r == s[..|r|]
  {
    if |s| > 0 && IsSpace(s[|s| - 1]) then TrimEnd(s[..|s| - 1]) else s
  }

  /** `Number(s)` of a string (section 7.1.4.1.1 of ECMA-262) when it is
      an integer written without fraction or exponent: surrounding white
      space is ignored, blank text is 0, a signed run of decimal digits or
      an unsigned `0x` run of hexadecimal digits is its value.  None stands
      for every other text, NaN among them. */
  function IntegerText(s: string): (r: Option<int>)
    ensures var t := TrimEnd(TrimStart(s)); |t| == 0 ==> r == Some(0)
  {
    var t := TrimEnd(TrimStart(s));
    if |t| == 0 then Some(0)
    else if HasHexPrefix(t) then
      var h := t[2..];
      if |h| > 0 && AllHexDigits(h) then Some(HexValue(h)) else None
    else
      var u := if t[0] == '-' || t[0] == '+' then t[1..] else t;
      if |u| > 0 && AllDigits(u) then
        var m: int := DigitsValue(u);
        Some(if t[0] == '-' then -m else m)
      else None
  }

  /** `Number(v)` where the model can say it is an integer: numbers, the
      booleans, `null` and integer texts; None for NaN (`undefined`, other
      texts) and for the conversions left out (objects, arrays). */
  function ToInteger(v: Js): (r: Option<int>)
    ensures v.Num? ==> r == Some(v.n)
    ensures v.Undef? ==> r.None?
    ensures v.Null? || v == Bool(false) ==> r == Some(0)
  {
    match v
    case Num(n) => Some(n)
    case Bool(b) => Some(if b then 1 else 0)
    case Null => Some(0)
    case Str(s) => IntegerText(s)
    case _ => None
  }

  /** The text of an integer converts back to the integer. */
  lemma IntegerTextOfIntToString(i: int)
    ensures IntegerText(IntToString(i)) == Some(i)
  {
    var s := IntToString(i);
    var m: nat := if i < 0 then -i else i;
    var digits := NatToString(m);
    DigitsValueOfNatToString(m);
    assert !HasHexPrefix(s);
    assert TrimStart(s) == s;
    assert !IsSpace(s[|s| - 1]);
    assert TrimEnd(s) == s;
    if i < 0 {
      assert s == "-" + digits;
      assert s[1..] == digits;
    }
  }

  /** `parseInt(v) || 0` of a falsy value is 0: `undefined`, `null` and
      `false` render as words, `''` holds no digit and `0` parses as 0. */
  lemma ParseIntOr0OfFalsy(v: Js)
    requires !Truthy(v)
    ensures ParseIntOr0(v) == 0
  {
    match v
    case Num(n) => ParseIntOfNum(n);
    case Undef => assert Unsigned("undefined") == "undefined";
    case Null => assert Unsigned("null") == "null";
    case Bool(_) => assert Unsigned("false") == "false";
    case Str(_) => assert Unsigned("") == "";
  }

  // ---------------------------------------------------------------------
  // Strings

  predicate IsPrefix(p: string, s: string)
  {
    |p| <= |s| && s[..|p|] == p
  }

  lemma PrefixOfPrefix(a: string, b: string, s: string)
    requires IsPrefix(a + b, s)
    ensures IsPrefix(a, s)
  {
    assert s[..|a|] == (a + b)[..|a|];
  }

  predicate IsSuffix(p: string, s: string)
  {
    |p| <= |s| && s[|s| - |p|..] == p
  }

  /** `s.includes(sub)` */
  predicate Contains(s: string, sub: string)
    decreases |s|
  {
    IsPrefix(sub, s) || (|s| > 0 && Contains(s[1..], sub))
  }

  lemma {:induction false} ContainsAt(s: string, sub: string, i: nat)
    requires i + |sub| <= |s| && s[i..i + |sub|] == sub
    ensures Contains(s, sub)
    decreases i
  {
    if i > 0 {
      assert s[1..][i - 1..i - 1 + |sub|] == sub;
      ContainsAt(s[1..], sub, i - 1);
    }
  }

  lemma {:induction false} ContainsWitness(s: string, sub: string) returns (i: nat)
    requires Contains(s, sub)
    ensures i + |sub| <= |s| && s[i..i + |sub|] == sub
    decreases |s|
  {
    if IsPrefix(sub, s) {
      i := 0;
    } else {
      var j := ContainsWitness(s[1..], sub);
      i := j + 1;
      assert s[i..i + |sub|] == s[1..][j..j + |sub|];
    }
  }

  /** A single character is contained exactly when it occurs. */
  lemma ContainsChar(s: string, c: char)
    ensures Contains(s, [c]) <==> c in s
  {
    if Contains(s, [c]) {
      var i := ContainsWitness(s, [c]);
      assert s[i] == c;
    }
    if c in s {
      var i :| 0 <= i < |s| && s[i] == c;
      assert s[i..i + 1] == [c];
      ContainsAt(s, [c], i);
    }
  }

  /** The position of the first `c` in `s`, or |s|. */
  function FirstIndexOf(s: string, c: char): (r: nat)
    ensures r <= |s|
    ensures forall i :: 0 <= i < r ==> s[i] != c
    ensures r < |s| ==> s[r] == c
  {
    if |s| == 0 || s[0] == c then 0 else 1 + FirstIndexOf(s[1..], c)
  }

  lemma {:induction false} FirstIndexAfterPrefix(a: string, c: char, rest: string)
    requires c !in a
    ensures FirstIndexOf(a + [c] + rest, c) == |a|
    decreases |a|
  {
    if |a| > 0 {
      assert (a + [c] + rest)[1..] == a[1..] + [c] + rest;
      FirstIndexAfterPrefix(a[1..], c, rest);
    }
  }

  /** `xs.join(sep)` for strings. */
  function Join(xs: seq<string>, sep: string): string
  {
    if |xs| == 0 then "" else if |xs| == 1 then xs[0] else xs[0] + sep + Join(xs[1..], sep)
  }

  // ---------------------------------------------------------------------
  // Sequences

  function Min(a: int, b: int): int
  {
    if a <= b then a else b
  }

  function Max(a: int, b: int): int
  {
    if a >= b then a else b
  }

  /** A `slice` bound resolved against a length: negative bounds count from
      the end, and the result is clamped to `[0, len]`. */
  function SliceBound(i: int, len: nat): (r: nat)
    ensures r <= len
    ensures 0 <= i <= len ==> r == i
    ensures i > len ==> r == len
    ensures i < 0 ==> r == Max(len + i, 0)
  {
    if i < 0 then Max(len + i, 0) else Min(i, len)
  }

  /** `s.slice(start, end)` */
  function Slice<T>(s: seq<T>, start: int, end: int): (r: seq<T>)
    ensures var from := SliceBound(start, |s|);
            var to := SliceBound(end, |s|);
            && |r| == Max(0, to - from)
            && forall k :: 0 <= k < |r| ==> r[k] == s[from + k]
  {
    var from := SliceBound(start, |s|);
    var to := SliceBound(end, |s|);
    if from >= to then [] else s[from..to]
  }

  /** For in-range bounds `slice` is the sequence slice. */
  lemma SliceInRange<T>(s: seq<T>, start: int, end: int)
    requires 0 <= start <= end <= |s|
    ensures Slice(s, start, end) == s[start..end]
  {
  }
}
