/** The JavaScript built-ins that the server and the two client scripts lean on:
    truthiness of an optional string, the whitespace class shared by `\s` and
    `String.prototype.trim`, `String.prototype.split` on a one-character
    separator, and the global `parseInt` with no radix argument. */
module JsBuiltins {

  datatype Option<+T> = None | Some(value: T)

  /** A request or form value in a boolean position: absent (`undefined`) and
      the empty string are falsy, every other string is truthy. */
  predicate Truthy(v: Option<string>) {
    v.Some? && v.value != ""
  }

  /** The characters matched by `\s` and removed by `trim()`: the ECMAScript
      WhiteSpace and LineTerminator productions. */
  predicate IsWhitespace(c: char) {
    || c == '\t' || c == '\n' || c == '\U{000B}' || c == '\U{000C}' || c == '\r'
    || c == ' ' || c == '\U{00A0}' || c == '\U{1680}'
    || ('\U{2000}' <= c <= '\U{200A}')
    || c == '\U{2028}' || c == '\U{2029}' || c == '\U{202F}' || c == '\U{205F}'
    || c == '\U{3000}' || c == '\U{FEFF}'
  }

  ghost predicate AllWhitespace(s: string) {
    forall k :: 0 <= k < |s| ==> IsWhitespace(s[k])
  }

  ghost predicate NoWhitespace(s: string) {
    forall k :: 0 <= k < |s| ==> !IsWhitespace(s[k])
  }

  // ---------------------------------------------------------------- trim

  /** Number of whitespace characters at the front of `s`. */
  function LeadingSpace(s: string): (n: nat)
    ensures n <= |s|
    ensures forall k :: 0 <= k < n ==> IsWhitespace(s[k])
    ensures n == |s| || !IsWhitespace(s[n])
  {
    if s != [] && IsWhitespace(s[0]) then
      var m := LeadingSpace(s[1..]);
      assert forall k :: 1 <= k < 1 + m ==> s[k] == s[1..][k - 1];
      1 + m
    else
      0
  }

  /** Number of whitespace characters at the back of `s`. */
  function TrailingSpace(s: string): (n: nat)
    ensures n <= |s|
    ensures forall k :: |s| - n <= k < |s| ==> IsWhitespace(s[k])
    ensures n == |s| || !IsWhitespace(s[|s| - n - 1])
  {
    if s != [] && IsWhitespace(s[|s| - 1]) then
      var m := TrailingSpace(s[..|s| - 1]);
      assert forall k :: |s| - 1 - m <= k < |s| - 1 ==> s[k] == s[..|s| - 1][k];
      1 + m
    else
      0
  }

  /** `r` is `s` with whitespace-only text cut from both ends. */
  ghost predicate PaddedBy(s: string, r: string) {
    exists i :: PaddedAt(s, r, i)
  }

  /** `r` sits at offset `i` of `s`, with only whitespace around it. */
  ghost predicate PaddedAt(s: string, r: string, i: int) {
    0 <= i <= |s| - |r| && s[i..i + |r|] == r && AllWhitespace(s[..i]) && AllWhitespace(s[i + |r|..])
  }

  /** `String.prototype.trim`. */
  function Trim(s: string): (r: string)
    ensures PaddedBy(s, r)
    ensures r == [] <==> AllWhitespace(s)
    ensures r != [] ==> !IsWhitespace(r[0]) && !IsWhitespace(r[|r| - 1])
  {
    var a := LeadingSpace(s);
    if a == |s| then
      assert PaddedAt(s, [], 0) by { assert s[0..0] == [] && s[..0] == [] && s[0..] == s; }
      []
    else
      var b := TrailingSpace(s);
      assert a < |s| - b;
      var r := s[a..|s| - b];
      assert s[a..a + |r|] == r;
      var tail := s[a + |r|..];
      forall k | 0 <= k < |tail| ensures IsWhitespace(tail[k]) {
        assert tail[k] == s[a + |r| + k];
      }
      assert PaddedAt(s, r, a);
      r
  }

  lemma TrimIdempotent(s: string)
    ensures Trim(Trim(s)) == Trim(s)
  {
    var r := Trim(s);
    if r != [] {
      assert LeadingSpace(r) == 0;
      assert TrailingSpace(r) == 0;
      assert r[0..|r|] == r;
    }
  }

  /** Text that neither starts nor ends with whitespace is left as it is. */
  lemma TrimUnpadded(s: string)
    requires s != [] && !IsWhitespace(s[0]) && !IsWhitespace(s[|s| - 1])
    ensures Trim(s) == s
  {
    assert LeadingSpace(s) == 0 && TrailingSpace(s) == 0;
    assert s[0..|s|] == s;
  }

  // ---------------------------------------------------------------- split

  /** The inverse of `split`: the fields glued back together with `sep`. */
  function Join(fields: seq<string>, sep: char): string
    requires |fields| >= 1
  {
    if |fields| == 1 then fields[0] else fields[0] + [sep] + Join(fields[1..], sep)
  }

  /** `s.split(sep)` for a one-character separator: never empty, no field holds
      the separator, and joining the fields with it gives `s` back. */
  function Split(s: string, sep: char): (fields: seq<string>)
    ensures |fields| >= 1
    ensures Join(fields, sep) == s
    ensures forall i :: 0 <= i < |fields| ==> sep !in fields[i]
  {
    if s == [] then
      [[]]
    else if s[0] == sep then
      var rest := Split(s[1..], sep);
      assert [s[0]] + s[1..] == s;
      [[]] + rest
    else
      var rest := Split(s[1..], sep);
      var fields := [[s[0]] + rest[0]] + rest[1..];
      assert fields[1..] == rest[1..];
      assert s == [s[0]] + s[1..];
      fields
  }

  /** Splitting after a separator-free prefix and one separator. */
  lemma {:induction false} SplitAfterSeparator(a: string, b: string, sep: char)
    requires sep !in a
    ensures Split(a + [sep] + b, sep) == [a] + Split(b, sep)
  {
    if a == [] {
      assert a + [sep] + b == [sep] + b;
      assert ([sep] + b)[1..] == b;
    } else {
      var s := a + [sep] + b;
      assert s[0] == a[0] && s[1..] == a[1..] + [sep] + b;
      SplitAfterSeparator(a[1..], b, sep);
      assert [a[0]] + a[1..] == a;
    }
  }

  /** The first field is everything up to the first separator. */
  lemma {:induction false} SplitFirstField(a: string, b: string, sep: char)
    requires sep !in a
    requires b == [] || b[0] == sep
    ensures Split(a + b, sep)[0] == a
  {
    if a == [] {
      assert a + b == b;
    } else {
      var s := a + b;
      assert s[0] == a[0] && s[1..] == a[1..] + b;
      SplitFirstField(a[1..], b, sep);
      assert [a[0]] + a[1..] == a;
    }
  }

  // ---------------------------------------------------------------- parseInt

  /** A JavaScript number as `parseInt` can return it. */
  datatype Num = NaN | Int(value: int)

  predicate IsDigit(c: char) {
    '0' <= c <= '9'
  }

  /** A digit in the given radix (10, or 16 after a `0x` prefix). */
  predicate IsRadixDigit(c: char, radix: nat) {
    if radix == 16 then IsDigit(c) || 'a' <= c <= 'f' || 'A' <= c <= 'F' else IsDigit(c)
  }

  function DigitValue(c: char): nat {
    if IsDigit(c) then c as nat - '0' as nat
    else if 'a' <= c <= 'f' then c as nat - 'a' as nat + 10
    else if 'A' <= c <= 'F' then c as nat - 'A' as nat + 10
    else 0
  }

  /** Length of the longest prefix of `s` made of radix digits. */
  function DigitRun(s: string, radix: nat): (n: nat)
    ensures n <= |s|
    ensures forall k :: 0 <= k < n ==> IsRadixDigit(s[k], radix)
    ensures n == |s| || !IsRadixDigit(s[n], radix)
  {
    if s != [] && IsRadixDigit(s[0], radix) then
      var m := DigitRun(s[1..], radix);
      assert forall k :: 1 <= k < 1 + m ==> s[k] == s[1..][k - 1];
      1 + m
    else
      0
  }

  /** The value of a digit string, most significant digit first. */
  function DigitsValue(ds: string, radix: nat): nat {
    if ds == [] then 0 else DigitsValue(ds[..|ds| - 1], radix) * radix + DigitValue(ds[|ds| - 1])
  }

  /** `s` without its leading whitespace and without one sign after it. */
  ghost function Unsigned(s: string): string {
    var t := s[LeadingSpace(s)..];
    if t != [] && (t[0] == '-' || t[0] == '+') then t[1..] else t
  }

  /** `u` starts with the `0x` or `0X` prefix of radix 16. */
  predicate HexPrefixed(u: string) {
    |u| >= 2 && u[0] == '0' && (u[1] == 'x' || u[1] == 'X')
  }

  /** The global `parseInt(s)`: leading whitespace skipped, one optional sign,
      then the unsigned part. The result is a number exactly when a digit of
      the radix in use follows the sign (and the `0x` prefix, if any), and it
      is negative only after a '-'. */
  function ParseInt(s: string): (r: Num)
    ensures r.Int? <==> var u := Unsigned(s);
      if HexPrefixed(u) then |u| > 2 && IsRadixDigit(u[2], 16) else u != [] && IsDigit(u[0])
    ensures r.Int? && r.value < 0 ==> LeadingSpace(s) < |s| && s[LeadingSpace(s)] == '-'
  {
    var t := s[LeadingSpace(s)..];
    if t != [] && t[0] == '-' then Negate(ParseUnsigned(t[1..]))
    else if t != [] && t[0] == '+' then ParseUnsigned(t[1..])
    else ParseUnsigned(t)
  }

  function Negate(n: Num): Num {
    match n
    case NaN => NaN
    case Int(v) => Int(-v)
  }

  /** After the sign: a `0x`/`0X` prefix switches to radix 16, then the longest
      run of digits is read; no digits at all gives NaN. */
  function ParseUnsigned(u: string): (r: Num)
    ensures r.Int? ==> r.value >= 0
    ensures r.Int? <==> if HexPrefixed(u) then |u| > 2 && IsRadixDigit(u[2], 16) else u != [] && IsDigit(u[0])
  {
    var hex := HexPrefixed(u);
    var radix := if hex then 16 else 10;
    var body := if hex then u[2..] else u;
    var n := DigitRun(body, radix);
    if n == 0 then NaN else Int(DigitsValue(body[..n], radix))
  }

  /** The decimal text of a natural number, as `String(n)` writes it. */
  function ShowNat(n: nat): (s: string)
    ensures |s| >= 1
  {
    if n < 10 then ['0' + n as char] else ShowNat(n / 10) + ['0' + (n % 10) as char]
  }

  function ShowInt(n: int): (s: string)
    ensures |s| >= 1
  {
    if n < 0 then "-" + ShowNat(-n) else ShowNat(n)
  }

  /** `String(n)` starts with '-' or a digit and ends with a digit. */
  lemma ShowIntEnds(n: int)
    ensures var s := ShowInt(n); (s[0] == '-' || IsDigit(s[0])) && IsDigit(s[|s| - 1])
  {
    var m: nat := if n < 0 then -n else n;
    ShowNatDigits(m);
    var d := ShowNat(m);
    assert IsDigit(d[0]) && IsDigit(d[|d| - 1]);
    if n < 0 {
      assert ShowInt(n)[|ShowInt(n)| - 1] == d[|d| - 1];
    }
  }

  lemma {:induction false} ShowNatDigits(n: nat)
    ensures forall k :: 0 <= k < |ShowNat(n)| ==> IsDigit(ShowNat(n)[k])
    ensures ShowNat(n)[0] == '0' <==> n == 0
    ensures n == 0 <==> ShowNat(n) == "0"
    ensures DigitsValue(ShowNat(n), 10) == n
  {
    if n >= 10 {
      ShowNatDigits(n / 10);
      var s := ShowNat(n);
      assert s[..|s| - 1] == ShowNat(n / 10);
    }
  }

  /** The digits a run of length `m` covers are exactly those a prefix of
      digits followed by a non-digit marks out. */
  lemma DigitRunExact(s: string, radix: nat, m: nat)
    requires m <= |s|
    requires forall k :: 0 <= k < m ==> IsRadixDigit(s[k], radix)
    requires m == |s| || !IsRadixDigit(s[m], radix)
    ensures DigitRun(s, radix) == m
  {
  }

  /** Decimal digits followed by anything that cannot continue them read as
      their value; a lone "0" followed by 'x' is excepted (it starts radix 16). */
  lemma ParseUnsignedDigits(digits: string, tail: string)
    requires digits != [] && forall k :: 0 <= k < |digits| ==> IsDigit(digits[k])
    requires tail == [] || !IsDigit(tail[0])
    requires digits == "0" && tail != [] ==> tail[0] != 'x' && tail[0] != 'X'
    ensures ParseUnsigned(digits + tail) == Int(DigitsValue(digits, 10))
  {
    var u := digits + tail;
    assert !HexPrefixed(u) by {
      if |u| >= 2 && u[0] == '0' {
        if |digits| >= 2 {
          assert u[1] == digits[1];
        } else {
          assert digits == "0" && u[1] == tail[0];
        }
      }
    }
    assert u[..|digits|] == digits;
    forall k | 0 <= k < |digits| ensures IsRadixDigit(u[k], 10) {
      assert u[k] == digits[k];
    }
    assert |digits| == |u| || u[|digits|] == tail[0];
    DigitRunExact(u, 10, |digits|);
  }

  /** `parseInt` reads back what `String(n)` wrote, and ignores any tail that
      cannot continue the number. The tail "x…" after a lone "0" is the one
      exception: "0x…" switches to radix 16. */
  lemma ParseIntShowPrefix(n: int, tail: string)
    requires tail == [] || !IsDigit(tail[0])
    requires n == 0 && tail != [] ==> tail[0] != 'x' && tail[0] != 'X'
    ensures ParseInt(ShowInt(n) + tail) == Int(n)
  {
    var m: nat := if n < 0 then -n else n;
    var u := ShowNat(m) + tail;
    ParseUnsignedShowNat(m, tail);
    if n < 0 {
      calc {
        ParseInt(ShowInt(n) + tail);
        { assert ShowInt(n) + tail == "-" + u; }
        ParseInt("-" + u);
        { ParseIntSign(u); }
        Negate(Int(m));
      }
    } else {
      calc {
        ParseInt(ShowInt(n) + tail);
        { assert ShowInt(n) + tail == u; }
        ParseInt(u);
        { ParseIntDigitFirst(u); }
        Int(m);
      }
    }
  }

  lemma ParseUnsignedShowNat(m: nat, tail: string)
    requires tail == [] || !IsDigit(tail[0])
    requires m == 0 && tail != [] ==> tail[0] != 'x' && tail[0] != 'X'
    ensures IsDigit((ShowNat(m) + tail)[0])
    ensures ParseUnsigned(ShowNat(m) + tail) == Int(m)
  {
    var digits := ShowNat(m);
    ShowNatDigits(m);
    ParseUnsignedDigits(digits, tail);
    assert (digits + tail)[0] == digits[0];
  }

  /** `parseInt` takes the leading run of decimal digits, leading zeros
      included, and ignores the rest (unless a lone leading "0" is followed by
      'x' or 'X'). */
  lemma ParseIntLeadingDigits(s: string, k: nat)
    requires 0 < k <= |s|
    requires forall i :: 0 <= i < k ==> IsDigit(s[i])
    requires k == |s| || !IsDigit(s[k])
    requires k == 1 && s[0] == '0' && k < |s| ==> s[k] != 'x' && s[k] != 'X'
    ensures ParseInt(s) == Int(DigitsValue(s[..k], 10))
  {
    var digits, tail := s[..k], s[k..];
    assert digits + tail == s;
    assert digits[0] == s[0];
    assert tail != [] ==> tail[0] == s[k];
    ParseUnsignedDigits(digits, tail);
    ParseIntDigitFirst(s);
  }

  lemma ParseIntSign(u: string)
    ensures ParseInt("-" + u) == Negate(ParseUnsigned(u))
  {
    var s := "-" + u;
    assert LeadingSpace(s) == 0 by { assert !IsWhitespace(s[0]); }
    assert s[0..] == s && s[1..] == u;
  }

  lemma ParseIntDigitFirst(u: string)
    requires u != [] && IsDigit(u[0])
    ensures ParseInt(u) == ParseUnsigned(u)
  {
    assert LeadingSpace(u) == 0 by { assert !IsWhitespace(u[0]); }
    assert u[0..] == u;
  }

  /** A value whose first non-blank character is not a sign or a digit is NaN. */
  lemma ParseIntNonNumeric(s: string)
    requires LeadingSpace(s) < |s|
    requires !IsDigit(s[LeadingSpace(s)]) && s[LeadingSpace(s)] != '-' && s[LeadingSpace(s)] != '+'
    ensures ParseInt(s) == NaN
  {
    var t := s[LeadingSpace(s)..];
    assert t[0] == s[LeadingSpace(s)];
  }
}
