/**
 * The string handling the bot performs on user input and on button payloads:
 * Python's `str.strip()`, `str.split(sep)`, `str(int)`, `int(str)` and the
 * decimal subset of `float(str)`, over `string` (a sequence of characters).
 */
module Text {
  import opened Wrappers
  import opened Lists

  /** The ASCII characters Python's `str.strip()` removes: tab to carriage return, the four separators 0x1C-0x1F, and space. */
  predicate IsSpace(c: char) {
    c == ' ' || ('\t' <= c <= '\r') || ('\U{1C}' <= c <= '\U{1F}')
  }

  /** Number of occurrences of `c` in `s`. */
  function CountChar(s: string, c: char): nat {
    if s == [] then 0 else (if s[0] == c then 1 else 0) + CountChar(s[1..], c)
  }

  lemma {:induction false} CountCharAppend(a: string, b: string, c: char)
    ensures CountChar(a + b, c) == CountChar(a, c) + CountChar(b, c)
  {
    if a == [] {
      assert a + b == b;
    } else {
      assert (a + b)[1..] == a[1..] + b;
      CountCharAppend(a[1..], b, c);
    }
  }

  lemma {:induction false} CountCharAbsent(s: string, c: char)
    requires forall k :: 0 <= k < |s| ==> s[k] != c
    ensures CountChar(s, c) == 0
  {
    if s != [] {
      CountCharAbsent(s[1..], c);
    }
  }

  // ---------------------------------------------------------------- strip

  /** Only whitespace lies outside `s[i..j]`. */
  predicate SpaceOutside(s: string, i: int, j: int) {
    && 0 <= i <= j <= |s|
    && (forall k :: 0 <= k < i ==> IsSpace(s[k]))
    && (forall k :: j <= k < |s| ==> IsSpace(s[k]))
  }

  /**
   * Python's `s.strip()`: removes whitespace from both ends, so the result
   * neither starts nor ends with whitespace (`TrimInfix`: and it is a piece
   * of `s` with only whitespace around it).
   */
  function Trim(s: string): (r: string)
    ensures |r| <= |s|
    ensures r == [] || (!IsSpace(r[0]) && !IsSpace(r[|r| - 1]))
    decreases |s|
  {
    if s != [] && IsSpace(s[0]) then Trim(s[1..])
    else if s != [] && IsSpace(s[|s| - 1]) then Trim(s[..|s| - 1])
    else s
  }

  /** `strip()` keeps a contiguous piece of `s` and removes only whitespace around it. */
  lemma {:induction false} TrimInfix(s: string)
    ensures exists i, j :: SpaceOutside(s, i, j) && Trim(s) == s[i..j]
    decreases |s|
  {
    if s != [] && IsSpace(s[0]) {
      TrimInfix(s[1..]);
      SpaceOutsideFront(s, Trim(s[1..]));
    } else if s != [] && IsSpace(s[|s| - 1]) {
      TrimInfix(s[..|s| - 1]);
      SpaceOutsideBack(s, s[..|s| - 1], Trim(s[..|s| - 1]));
    } else {
      assert SpaceOutside(s, 0, |s|) && s == s[0..|s|];
    }
  }

  lemma SpaceOutsideFront(s: string, r: string)
    requires s != [] && IsSpace(s[0])
    requires exists i, j :: SpaceOutside(s[1..], i, j) && r == s[1..][i..j]
    ensures exists i, j :: SpaceOutside(s, i, j) && r == s[i..j]
  {
    var i, j :| SpaceOutside(s[1..], i, j) && r == s[1..][i..j];
    assert s[1..][i..j] == s[i + 1..j + 1];
    assert forall k :: 0 < k < |s| ==> s[k] == s[1..][k - 1];
    assert SpaceOutside(s, i + 1, j + 1);
  }

  lemma SpaceOutsideBack(s: string, front: string, r: string)
    requires s != [] && IsSpace(s[|s| - 1]) && front == s[..|s| - 1]
    requires exists i, j :: SpaceOutside(front, i, j) && r == front[i..j]
    ensures exists i, j :: SpaceOutside(s, i, j) && r == s[i..j]
  {
    var i, j :| SpaceOutside(front, i, j) && r == front[i..j];
    assert forall k :: 0 <= k < |front| ==> front[k] == s[k];
    assert front[i..j] == s[i..j];
    assert SpaceOutside(s, i, j);
  }

  /** A string with no whitespace at either end is left as it is by `strip()`. */
  lemma TrimUnchanged(s: string)
    requires s == [] || (!IsSpace(s[0]) && !IsSpace(s[|s| - 1]))
    ensures Trim(s) == s
  {
  }

  /** `strip()` introduces no character: whatever it keeps was in `s`. */
  lemma {:induction false} TrimSubset(s: string)
    ensures forall c :: c in Trim(s) ==> c in s
    decreases |s|
  {
    if s != [] && IsSpace(s[0]) {
      TrimSubset(s[1..]);
    } else if s != [] && IsSpace(s[|s| - 1]) {
      TrimSubset(s[..|s| - 1]);
    }
  }

  /** `strip()` removes only whitespace: it keeps every other character, in particular every comma. */
  lemma {:induction false} TrimKeepsCount(s: string, c: char)
    requires !IsSpace(c)
    ensures CountChar(Trim(s), c) == CountChar(s, c)
    decreases |s|
  {
    if s != [] && IsSpace(s[0]) {
      TrimKeepsCount(s[1..], c);
    } else if s != [] && IsSpace(s[|s| - 1]) {
      var front := s[..|s| - 1];
      TrimKeepsCount(front, c);
      assert s == front + [s[|s| - 1]];
      CountCharAppend(front, [s[|s| - 1]], c);
    }
  }

  // ---------------------------------------------------------------- split

  /**
   * Python's `s.split(sep)` for a one-character separator: the pieces between
   * separators, so there is always one more piece than there are separators
   * and no piece contains the separator.
   */
  function Split(s: string, sep: char): (parts: seq<string>)
    ensures |parts| == CountChar(s, sep) + 1
    ensures forall k :: 0 <= k < |parts| ==> sep !in parts[k]
  {
    if s == [] then [""]
    else
      var rest := Split(s[1..], sep);
      if s[0] == sep then [""] + rest
      else [[s[0]] + rest[0]] + rest[1..]
  }

  /** Python's `sep.join(parts)`. */
  function Join(parts: seq<string>, sep: char): string {
    if parts == [] then ""
    else if |parts| == 1 then parts[0]
    else parts[0] + [sep] + Join(parts[1..], sep)
  }

  /** Splitting loses nothing: joining the pieces back with the separator gives the original string. */
  lemma {:induction false} SplitJoin(s: string, sep: char)
    ensures Join(Split(s, sep), sep) == s
  {
    if s != [] {
      var rest := Split(s[1..], sep);
      SplitJoin(s[1..], sep);
      if s[0] == sep {
        assert Split(s, sep) == [""] + rest;
        assert s == [sep] + s[1..];
      } else {
        var parts := Split(s, sep);
        assert parts[0] == [s[0]] + rest[0];
        assert parts[1..] == rest[1..];
        if |rest| == 1 {
          assert s[1..] == rest[0];
        } else {
          assert Join(rest, sep) == rest[0] + [sep] + Join(rest[1..], sep);
        }
      }
    }
  }

  /** A string without the separator splits into itself alone. */
  lemma {:induction false} SplitWithoutSep(s: string, sep: char)
    requires sep !in s
    ensures Split(s, sep) == [s]
  {
    if s != [] {
      assert s[0] != sep;
      assert sep !in s[1..] by {
        assert forall k :: 0 <= k < |s| - 1 ==> s[1..][k] == s[k + 1];
      }
      SplitWithoutSep(s[1..], sep);
      assert [s[0]] + s[1..] == s;
    }
  }

  /** Whatever precedes a separator does not affect the pieces after it. */
  lemma {:induction false} SplitAfterSep(a: string, sep: char, b: string)
    ensures Split(a + [sep] + b, sep) == Split(a, sep) + Split(b, sep)
  {
    var s := a + [sep] + b;
    if a == [] {
      assert s[1..] == b;
    } else {
      assert s[1..] == a[1..] + [sep] + b;
      SplitAfterSep(a[1..], sep, b);
    }
  }

  // ---------------------------------------------------------------- numbers

  predicate IsDigit(c: char) {
    '0' <= c <= '9'
  }

  predicate AllDigits(s: string) {
    forall k :: 0 <= k < |s| ==> IsDigit(s[k])
  }

  function DigitValue(c: char): nat
    requires IsDigit(c)
  {
    c as int - '0' as int
  }

  function DigitChar(d: nat): (c: char)
    requires d < 10
    ensures IsDigit(c) && DigitValue(c) == d
  {
    ('0' as int + d) as char
  }

  /** The value of a string of decimal digits, most significant first. */
  function DigitsValue(s: string): nat
    requires AllDigits(s)
  {
    if s == [] then 0 else DigitsValue(s[..|s| - 1]) * 10 + DigitValue(s[|s| - 1])
  }

  function Pow10(n: nat): (p: nat)
    ensures p >= 1
  {
    if n == 0 then 1 else 10 * Pow10(n - 1)
  }

  /** Python's `str(n)` for a non-negative integer: no leading zero except in "0" itself. */
  function NatToString(n: nat): (s: string)
    ensures s != [] && AllDigits(s)
    ensures s[0] == '0' <==> n == 0
    ensures |s| > 1 ==> n >= 10
  {
    if n < 10 then [DigitChar(n)] else NatToString(n / 10) + [DigitChar(n % 10)]
  }

  /** Python's `str(n)` for any integer. */
  function IntToString(n: int): (s: string)
    ensures s != [] && '_' !in s && '.' !in s && ',' !in s
    ensures (s[0] == '-' || IsDigit(s[0])) && IsDigit(s[|s| - 1])
    ensures s[0] == '-' <==> n < 0
    ensures s[0] == '-' ==> |s| > 1 && s[1] != '0'
    ensures s[0] != '-' && |s| > 1 ==> s[0] != '0'
    ensures n >= 0 ==> s == NatToString(n)
  {
    var s := if n < 0 then "-" + NatToString(-n) else NatToString(n);
    assert forall k :: 0 <= k < |s| ==> s[k] != '_' && s[k] != '.' && s[k] != ',' by {
      var d := NatToString(if n < 0 then -n else n);
      assert forall k :: 0 <= k < |d| ==> IsDigit(d[k]);
    }
    s
  }

  lemma {:induction false} NatToStringValue(n: nat)
    ensures DigitsValue(NatToString(n)) == n
  {
    if n >= 10 {
      NatToStringValue(n / 10);
      var s := NatToString(n);
      assert s[..|s| - 1] == NatToString(n / 10);
    }
  }

  /**
   * Python's `int(s)` on ASCII input: whitespace around an optional sign
   * followed by at least one digit. A plain digit string reads as its value;
   * any accepted text ends, once stripped, in a digit, and a negative result
   * needs a minus sign.
   */
  function ParseInt(s: string): (r: Option<int>)
    ensures s != [] && AllDigits(s) ==> r == Some(DigitsValue(s))
    ensures r.Some? ==> Trim(s) != [] && IsDigit(Trim(s)[|Trim(s)| - 1])
    ensures r.Some? && r.value < 0 ==> Trim(s)[0] == '-'
  {
    var t := Trim(s);
    assert s != [] && AllDigits(s) ==> t == s by {
      if s != [] && AllDigits(s) {
        assert IsDigit(s[0]) && IsDigit(s[|s| - 1]);
        TrimUnchanged(s);
      }
    }
    if |t| > 0 && (t[0] == '-' || t[0] == '+') then
      var ds := t[1..];
      var v: int := if ds != [] && AllDigits(ds) then DigitsValue(ds) else 0;
      if ds != [] && AllDigits(ds) then
        assert t[|t| - 1] == ds[|ds| - 1];
        Some(if t[0] == '-' then -v else v)
      else None
    else if t != [] && AllDigits(t) then Some(DigitsValue(t))
    else None
  }

  /** `int(str(n)) == n` for every integer. */
  lemma {:induction false} IntToStringRoundTrip(n: int)
    ensures ParseInt(IntToString(n)) == Some(n)
  {
    TrimUnchanged(IntToString(n));
    if n < 0 {
      NatToStringValue(-n);
      assert IntToString(n)[1..] == NatToString(-n);
    } else {
      NatToStringValue(n);
    }
  }

  /** An unsigned decimal: digits, optionally a point and more digits, at least one digit in all. */
  function ParseUnsignedDecimal(s: string): (r: Option<real>)
    ensures r.Some? ==> r.value >= 0.0
  {
    var k := Position(s, '.');
    var whole := s[..k];
    var fraction := if k < |s| then s[k + 1..] else "";
    if AllDigits(whole) && AllDigits(fraction) && |whole| + |fraction| > 0 then
      Some(PointValue(whole, fraction))
    else None
  }

  /** The value of `whole + "." + fraction`. */
  function PointValue(whole: string, fraction: string): (v: real)
    requires AllDigits(whole) && AllDigits(fraction)
    ensures v >= 0.0
  {
    DigitsValue(whole) as real + DigitsValue(fraction) as real / Pow10(|fraction|) as real
  }

  /**
   * Python's `float(s)` restricted to plain decimal notation with an optional
   * sign: a digit string reads as its value, and a negative result needs a
   * minus sign.
   */
  function ParseDecimal(s: string): (r: Option<real>)
    ensures s != [] && AllDigits(s) ==> r == Some(DigitsValue(s) as real)
    ensures r.Some? && r.value < 0.0 ==> s != [] && s[0] == '-'
  {
    if |s| > 0 && (s[0] == '-' || s[0] == '+') then
      match ParseUnsignedDecimal(s[1..])
      case None => None
      case Some(v) => Some(if s[0] == '-' then -v else v)
    else
      assert s != [] && AllDigits(s) ==> Position(s, '.') == |s| && s[..|s|] == s;
      ParseUnsignedDecimal(s)
  }

  /** Digits and at most one point, with at least one digit: what the unsigned part of `float` reads. */
  predicate UnsignedNumeral(s: string) {
    && CountChar(s, '.') <= 1
    && CountChar(s, '.') < |s|
    && forall k :: 0 <= k < |s| ==> IsDigit(s[k]) || s[k] == '.'
  }

  /** An unsigned numeral, possibly after one leading sign. */
  predicate DecimalNumeral(s: string) {
    UnsignedNumeral(s) || (|s| > 0 && (s[0] == '-' || s[0] == '+') && UnsignedNumeral(s[1..]))
  }

  lemma {:induction false} CountCharZero(s: string, c: char)
    requires CountChar(s, c) == 0
    ensures forall k :: 0 <= k < |s| ==> s[k] != c
  {
    if s != [] {
      CountCharZero(s[1..], c);
      assert forall k :: 1 <= k < |s| ==> s[k] == s[1..][k - 1];
    }
  }

  lemma ShiftByTen(x: int, p: int, y: int, d: int, whole: int, shift: int, tail: int)
    requires whole == (x * p + y) * 10 + d && shift == 10 * p && tail == y * 10 + d
    ensures whole == x * shift + tail
  {
  }

  lemma AllDigitsAppend(a: string, b: string)
    requires AllDigits(a) && AllDigits(b)
    ensures AllDigits(a + b)
  {
    assert forall k :: 0 <= k < |a + b| ==> (a + b)[k] == if k < |a| then a[k] else b[k - |a|];
  }

  /** Writing digits after digits shifts the first ones by a power of ten. */
  lemma {:induction false} DigitsValueAppend(a: string, b: string)
    requires AllDigits(a) && AllDigits(b)
    ensures AllDigits(a + b) && DigitsValue(a + b) == DigitsValue(a) * Pow10(|b|) + DigitsValue(b)
    decreases |b|
  {
    AllDigitsAppend(a, b);
    if b == [] {
      assert a + b == a;
    } else {
      var front := b[..|b| - 1];
      DigitsValueAppend(a, front);
      assert (a + b)[..|a + b| - 1] == a + front;
      assert (a + b)[|a + b| - 1] == b[|b| - 1];
      ShiftByTen(DigitsValue(a), Pow10(|front|), DigitsValue(front), DigitValue(b[|b| - 1]),
        DigitsValue(a + b), Pow10(|b|), DigitsValue(b));
    }
  }

  /** The unsigned parse accepts exactly the unsigned numerals. */
  lemma UnsignedDecimalAccepts(s: string)
    ensures ParseUnsignedDecimal(s).Some? <==> UnsignedNumeral(s)
  {
    var k := Position(s, '.');
    var fraction := if k < |s| then s[k + 1..] else "";
    assert ParseUnsignedDecimal(s).Some? <==> AllDigits(s[..k]) && AllDigits(fraction) && k + |fraction| > 0;
    PointSplitNumeral(s);
  }

  /** Splitting at the first point leaves two digit strings exactly when `s` is an unsigned numeral. */
  lemma PointSplitNumeral(s: string)
    ensures var k := Position(s, '.');
      var fraction := if k < |s| then s[k + 1..] else "";
      AllDigits(s[..k]) && AllDigits(fraction) && k + |fraction| > 0 <==> UnsignedNumeral(s)
  {
    var k := Position(s, '.');
    if k == |s| {
      assert s[..k] == s;
      CountCharAbsent(s, '.');
    } else {
      assert s == s[..k] + ("." + s[k + 1..]);
      NumeralAtPoint(s[..k], s[k + 1..]);
    }
  }

  /** A numeral whose first point follows `whole`: both sides must be digits, and not both empty. */
  lemma NumeralAtPoint(whole: string, fraction: string)
    requires forall i :: 0 <= i < |whole| ==> whole[i] != '.'
    ensures AllDigits(whole) && AllDigits(fraction) && |whole| + |fraction| > 0 <==> UnsignedNumeral(whole + ("." + fraction))
  {
    var tail := "." + fraction;
    var s := whole + tail;
    CountCharAbsent(whole, '.');
    CountCharAppend(whole, tail, '.');
    assert tail[1..] == fraction;
    assert CountChar(s, '.') == 1 + CountChar(fraction, '.');
    assert forall i :: 0 <= i < |fraction| ==> fraction[i] == s[|whole| + 1 + i];
    assert forall i :: 0 <= i < |whole| ==> whole[i] == s[i];
    if AllDigits(fraction) {
      CountCharAbsent(fraction, '.');
    }
    if UnsignedNumeral(s) {
      CountCharZero(fraction, '.');
    }
  }

  /** `float(w + "." + f)`: the digits of both parts read as one number, scaled down by the fraction's length. */
  lemma UnsignedDecimalPoint(w: string, f: string)
    requires AllDigits(w) && AllDigits(f) && |w| + |f| > 0
    ensures AllDigits(w + f)
    ensures ParseUnsignedDecimal(w + "." + f) == Some(DigitsValue(w + f) as real / Pow10(|f|) as real)
  {
    SplitAtPoint(w, f);
    PointValueDigits(w, f);
  }

  /** The value of `w.f` is the digits of `w` and `f` together over ten to the length of `f`. */
  lemma PointValueDigits(w: string, f: string)
    requires AllDigits(w) && AllDigits(f)
    ensures AllDigits(w + f) && PointValue(w, f) == DigitsValue(w + f) as real / Pow10(|f|) as real
  {
    DigitsValueAppend(w, f);
    ScaleDown(DigitsValue(w), Pow10(|f|), DigitsValue(f), DigitsValue(w + f));
  }

  /** The parse splits `w + "." + f` back into `w` and `f`. */
  lemma SplitAtPoint(w: string, f: string)
    requires AllDigits(w) && AllDigits(f) && |w| + |f| > 0
    ensures ParseUnsignedDecimal(w + "." + f) == Some(PointValue(w, f))
  {
    var s := w + "." + f;
    PositionAt(s, '.', |w|);
    assert s[..|w|] == w && s[|w| + 1..] == f;
  }

  lemma PositionAt(s: string, c: char, k: nat)
    requires k < |s| && s[k] == c
    requires forall i :: 0 <= i < k ==> s[i] != c
    ensures Position(s, c) == k
  {
  }

  lemma ScaleDown(x: nat, p: nat, y: nat, z: nat)
    requires p >= 1 && z == x * p + y
    ensures z as real / p as real == x as real + y as real / p as real
  {
    var q := p as real;
    assert z as real == x as real * q + y as real;
    assert (x as real * q) / q == x as real;
  }

  /** `float` accepts exactly the decimal numerals, sign included. */
  lemma ParseDecimalAccepts(s: string)
    ensures ParseDecimal(s).Some? <==> DecimalNumeral(s)
  {
    if |s| > 0 && (s[0] == '-' || s[0] == '+') {
      UnsignedDecimalAccepts(s[1..]);
      assert !UnsignedNumeral(s);
    } else {
      UnsignedDecimalAccepts(s);
    }
  }

  /**
   * A numeral with a point reads as its digits over a power of ten
   * (`SignedDecimal` adds the sign).
   */
  lemma ParseDecimalPoint(w: string, f: string)
    requires AllDigits(w) && AllDigits(f) && |w| + |f| > 0
    ensures AllDigits(w + f)
    ensures ParseDecimal(w + "." + f) == Some(DigitsValue(w + f) as real / Pow10(|f|) as real)
  {
    UnsignedDecimalPoint(w, f);
    UnsignedBranch(w + "." + f, |w|);
  }

  /** Text that starts with a digit or a point is read without a sign. */
  lemma UnsignedBranch(s: string, k: nat)
    requires k < |s| && s[k] == '.' && forall i :: 0 <= i < k ==> IsDigit(s[i])
    ensures ParseDecimal(s) == ParseUnsignedDecimal(s)
  {
    assert IsDigit(s[0]) || s[0] == '.';
  }

  /** A sign in front of an unsigned numeral keeps or negates its value. */
  lemma SignedDecimal(s: string, v: real)
    requires ParseUnsignedDecimal(s) == Some(v)
    ensures ParseDecimal("+" + s) == Some(v)
    ensures ParseDecimal("-" + s) == Some(-v)
  {
    SignCase("+" + s, s, v);
    SignCase("-" + s, s, v);
  }

  lemma SignCase(t: string, s: string, v: real)
    requires |t| > 0 && (t[0] == '+' || t[0] == '-') && t[1..] == s
    requires ParseUnsignedDecimal(s) == Some(v)
    ensures ParseDecimal(t) == Some(if t[0] == '-' then -v else v)
  {
  }

  /** A signed digit string reads as its value, negated after a minus sign. */
  lemma ParseDecimalWhole(w: string)
    requires w != [] && AllDigits(w)
    ensures ParseDecimal("+" + w) == Some(DigitsValue(w) as real)
    ensures ParseDecimal("-" + w) == Some(-(DigitsValue(w) as real))
  {
    CountCharAbsent(w, '.');
    assert Position(w, '.') == |w| && w[..|w|] == w;
    assert PointValue(w, "") == DigitsValue(w) as real;
    SignedDecimal(w, DigitsValue(w) as real);
  }

  /** So the bot's usual amount "12.50" reads as 12.5. */
  lemma ParseDecimalCents()
    ensures ParseDecimal("12.50") == Some(12.5)
  {
    assert "12.50" == "12" + "." + "50";
    ParseDecimalPoint("12", "50");
    assert "12" + "50" == "1250";
    assert "1250"[..3] == "125" && "125"[..2] == "12" && "12"[..1] == "1" && "1"[..0] == "";
    assert DigitsValue("1250") == 1250;
    assert Pow10(2) == 100;
    assert ParseDecimal("12" + "." + "50") == Some(1250 as real / 100 as real);
    CentsValue();
  }

  lemma CentsValue()
    ensures 1250 as real / 100 as real == 12.5
  {
  }

  /** Like `int(" 7")`, the integer parse ignores blanks around the digits. */
  lemma ParseIntBlanks()
    ensures ParseInt(" 7") == Some(7)
  {
    assert " 7"[1..] == "7";
    TrimUnchanged("7");
    assert Trim(" 7") == "7";
  }

  /** So a payload whose id has blanks around it still decodes. */
  lemma DecodeCallbackIdBlanks()
    ensures DecodeCallbackId("x_ 7") == Some(7)
  {
    assert "x_" + " 7" == "x_ 7";
    LastPartAfterPrefix("x_", " 7");
    ParseIntBlanks();
  }

  /** `float(str(n)) == n` for every integer. */
  lemma {:induction false} IntToStringParsesAsDecimal(n: int)
    ensures ParseDecimal(IntToString(n)) == Some(n as real)
  {
    var m: nat := if n < 0 then -n else n;
    NatToStringParsesUnsigned(m);
    if n < 0 {
      assert IntToString(n)[1..] == NatToString(m);
    }
  }

  /** The decimal form of a natural number reads back through the unsigned part of `float`. */
  lemma NatToStringParsesUnsigned(m: nat)
    ensures ParseUnsignedDecimal(NatToString(m)) == Some(m as real)
  {
    var d := NatToString(m);
    NatToStringValue(m);
    assert Position(d, '.') == |d|;
    assert d[..|d|] == d;
  }

  // ---------------------------------------------------------------- callback payloads

  /**
   * Button payload `f"{prefix}{user_id}"`: the prefix, then the decimal form
   * of the id, which has no underscore and reads back as the id.
   */
  function EncodeCallback(prefix: string, id: int): (data: string)
    ensures |prefix| <= |data| && data[..|prefix|] == prefix
    ensures '_' !in data[|prefix|..] && ParseInt(data[|prefix|..]) == Some(id)
  {
    IntToStringRoundTrip(id);
    var data := prefix + IntToString(id);
    assert data[|prefix|..] == IntToString(id);
    data
  }

  /**
   * `int(data.split("_")[-1])`: the integer after the last underscore; a
   * payload without an underscore is read whole.
   */
  function DecodeCallbackId(data: string): (id: Option<int>)
    ensures '_' !in data ==> id == ParseInt(data)
  {
    var parts := Split(data, '_');
    assert '_' !in data ==> parts == [data] by {
      if '_' !in data {
        SplitWithoutSep(data, '_');
      }
    }
    ParseInt(parts[|parts| - 1])
  }

  /**
   * Every id written into a button payload is read back unchanged, because the
   * decimal form of an integer contains no underscore; it holds for every
   * prefix that is empty or ends with an underscore, such as `select_payer_`.
   */
  lemma {:induction false} CallbackIdRoundTrip(prefix: string, id: int)
    requires prefix == [] || prefix[|prefix| - 1] == '_'
    ensures DecodeCallbackId(EncodeCallback(prefix, id)) == Some(id)
  {
    var digits := IntToString(id);
    assert EncodeCallback(prefix, id) == prefix + digits;
    IntToStringRoundTrip(id);
    LastPartAfterPrefix(prefix, digits);
  }

  /** After a prefix that is empty or ends with the separator, the last part is the suffix written, when it has no separator. */
  lemma LastPartAfterPrefix(prefix: string, digits: string)
    requires prefix == [] || prefix[|prefix| - 1] == '_'
    requires '_' !in digits
    ensures var parts := Split(prefix + digits, '_'); parts[|parts| - 1] == digits
  {
    SplitWithoutSep(digits, '_');
    if prefix == [] {
      assert prefix + digits == digits;
    } else {
      var a := prefix[..|prefix| - 1];
      assert prefix + digits == a + ['_'] + digits;
      SplitAfterSep(a, '_', digits);
    }
  }
}
