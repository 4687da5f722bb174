// The JavaScript string operations the services use (`trim`, `toLowerCase`,
// `split`, `join`, `includes`, `startsWith`, `endsWith`, `parseInt`,
// `toString`, `padStart`, `slice`), written out on `seq<char>`.
module Strings {
  import opened Common

  /** The characters JavaScript's `trim` and the regular-expression class
      `\s` treat as white space. */
  predicate IsSpace(c: char)
  {
    c == ' ' || c == '\t' || c == '\n' || c == '\r' || c == '\U{000B}' || c == '\U{000C}'
    || c == '\U{00A0}' || c == '\U{FEFF}' || c == '\U{1680}'
    || ('\U{2000}' <= c <= '\U{200A}')
    || c == '\U{2028}' || c == '\U{2029}' || c == '\U{202F}' || c == '\U{205F}' || c == '\U{3000}'
  }

  /** The regular-expression class `\w` (without the `u` flag): ASCII letters,
      digits and the underscore. */
  predicate IsWordChar(c: char)
  {
    ('a' <= c <= 'z') || ('A' <= c <= 'Z') || ('0' <= c <= '9') || c == '_'
  }

  predicate IsDigit(c: char)
  {
    '0' <= c <= '9'
  }

  function TrimStart(s: string): (r: string)
    ensures |r| <= |s| && r == s[|s| - |r|..]
    ensures r != [] ==> !IsSpace(r[0])
    ensures forall i :: 0 <= i < |s| - |r| ==> IsSpace(s[i])
  {
    if s != [] && IsSpace(s[0]) then TrimStart(s[1..]) else s
  }

  function TrimEnd(s: string): (r: string)
    ensures |r| <= |s| && r == s[..|r|]
    ensures r != [] ==> !IsSpace(r[|r| - 1])
    ensures forall i :: |r| <= i < |s| ==> IsSpace(s[i])
  {
    if s != [] && IsSpace(s[|s| - 1]) then TrimEnd(s[..|s| - 1]) else s
  }

  /** `String.prototype.trim`. */
  function Trim(s: string): (r: string)
  {
    TrimEnd(TrimStart(s))
  }

  /** A string that neither starts nor ends with white space is its own
      trim. */
  lemma TrimUnchanged(s: string)
    requires s != [] ==> !IsSpace(s[0]) && !IsSpace(s[|s| - 1])
    ensures Trim(s) == s
  {
  }

  /** What `trim` returns is a piece of its input. */
  lemma TrimIsInfix(s: string)
    ensures Contains(s, Trim(s))
  {
    var t := TrimStart(s);
    var k := |s| - |t|;
    assert t == s[k..];
    assert Trim(s) <= s[k..];
  }

  /** `trim` yields the empty string exactly on blank input. */
  lemma TrimEmptyIffBlank(s: string)
    ensures (forall i :: 0 <= i < |s| ==> IsSpace(s[i])) <==> Trim(s) == []
  {
    var t := TrimStart(s);
    var k := |s| - |t|;
    if Trim(s) == [] {
      assert t == [];
    } else {
      assert !IsSpace(t[0]);
      assert t[0] == s[k];
    }
  }

  /** Trimming twice is trimming once. */
  lemma TrimIdempotent(s: string)
    ensures Trim(Trim(s)) == Trim(s)
  {
    var t := Trim(s);
    if t != [] {
      assert t[0] == TrimStart(s)[0];
    }
    assert TrimStart(t) == t;
    assert TrimEnd(t) == t;
  }

  function LowerChar(c: char): char
  {
    if 'A' <= c <= 'Z' then (c as int - 'A' as int + 'a' as int) as char else c
  }

  /** `String.prototype.toLowerCase` on ASCII letters. */
  function ToLower(s: string): (r: string)
    ensures |r| == |s|
    ensures forall i :: 0 <= i < |s| ==> r[i] == LowerChar(s[i])
  {
    seq(|s|, i requires 0 <= i < |s| => LowerChar(s[i]))
  }

  /** Lower-casing twice is lower-casing once. */
  lemma {:induction false} ToLowerIdempotent(s: string)
    ensures ToLower(ToLower(s)) == ToLower(s)
  {
    var t := ToLower(s);
    forall i | 0 <= i < |s| ensures ToLower(t)[i] == t[i] {
      assert t[i] == LowerChar(s[i]);
    }
  }

  predicate StartsWith(s: string, prefix: string)
  {
    prefix <= s
  }

  predicate EndsWith(s: string, suffix: string)
  {
    |suffix| <= |s| && s[|s| - |suffix|..] == suffix
  }

  /** `s.includes(t)`; also the ORM's `contains` filter. */
  predicate Contains(s: string, t: string)
  {
    exists i :: 0 <= i <= |s| - |t| && t <= s[i..]
  }

  /** The ORM's `contains` with `mode: 'insensitive'`. */
  predicate ContainsInsensitive(s: string, t: string)
  {
    Contains(ToLower(s), ToLower(t))
  }

  function IndexOf(s: string, c: char): (r: Option<nat>)
    ensures r.None? <==> c !in s
    ensures r.Some? ==> r.value < |s| && s[r.value] == c && c !in s[..r.value]
  {
    if s == [] then None
    else if s[0] == c then Some(0)
    else
      var r := IndexOf(s[1..], c);
      if r.None? then None else Some(r.value + 1)
  }

  function LastIndexOf(s: string, c: char): (r: Option<nat>)
    ensures r.None? <==> c !in s
    ensures r.Some? ==> r.value < |s| && s[r.value] == c && c !in s[r.value + 1..]
  {
    if s == [] then None
    else if s[|s| - 1] == c then Some(|s| - 1)
    else LastIndexOf(s[..|s| - 1], c)
  }

  /** `s.split(c)` for a one-character separator. */
  function Split(s: string, c: char): (r: seq<string>)
    ensures |r| >= 1
    ensures forall i :: 0 <= i < |r| ==> c !in r[i]
    decreases |s|
  {
    var k := IndexOf(s, c);
    if k.None? then [s] else [s[..k.value]] + Split(s[k.value + 1..], c)
  }

  /** `s.split(c)[0]`: everything before the first separator. */
  function FirstField(s: string, c: char): string
  {
    var k := IndexOf(s, c);
    if k.None? then s else s[..k.value]
  }

  lemma FirstFieldIsSplitHead(s: string, c: char)
    ensures FirstField(s, c) == Split(s, c)[0]
  {
  }

  /** `parts.join(sep)`. */
  function Join(parts: seq<string>, sep: string): (r: string)
  {
    if parts == [] then ""
    else if |parts| == 1 then parts[0]
    else parts[0] + sep + Join(parts[1..], sep)
  }

  /** Splitting on a character and joining the pieces back with it gives the
      input back. */
  lemma {:induction false} JoinSplit(s: string, c: char)
    ensures Join(Split(s, c), [c]) == s
    decreases |s|
  {
    var k := IndexOf(s, c);
    if k.Some? {
      var rest := s[k.value + 1..];
      var tail := Split(rest, c);
      JoinSplit(rest, c);
      var parts := [s[..k.value]] + tail;
      assert Split(s, c) == parts;
      assert parts[1..] == tail;
      assert Join(parts, [c]) == s[..k.value] + [c] + Join(tail, [c]);
      assert s == s[..k.value] + [c] + rest;
    }
  }

  /** Conversely, pieces that do not contain the separator come back from
      `split` exactly as they went into `join`. */
  lemma {:induction false} SplitJoin(parts: seq<string>, c: char)
    requires |parts| >= 1
    requires forall i :: 0 <= i < |parts| ==> c !in parts[i]
    ensures Split(Join(parts, [c]), c) == parts
  {
    if |parts| == 1 {
      assert IndexOf(parts[0], c).None?;
    } else {
      var rest := parts[1..];
      assert forall i :: 0 <= i < |rest| ==> c !in rest[i] by {
        forall i | 0 <= i < |rest| ensures c !in rest[i] {
          assert rest[i] == parts[i + 1];
        }
      }
      SplitJoin(rest, c);
      assert c !in parts[0];
      SplitAt(parts[0], c, Join(rest, [c]));
      assert Join(parts, [c]) == parts[0] + [c] + Join(rest, [c]);
      assert parts == [parts[0]] + rest;
    }
  }

  /** Splitting at the first separator. */
  lemma SplitAt(head: string, c: char, tail: string)
    requires c !in head
    ensures Split(head + [c] + tail, c) == [head] + Split(tail, c)
  {
    var s := head + [c] + tail;
    IndexOfAfterPrefix(head, c, tail);
    assert s[..|head|] == head;
    assert s[|head| + 1..] == tail;
  }

  lemma {:induction false} IndexOfAfterPrefix(a: string, c: char, b: string)
    requires c !in a
    ensures IndexOf(a + [c] + b, c) == Some(|a|)
  {
    if a != [] {
      assert (a + [c] + b)[1..] == a[1..] + [c] + b;
      IndexOfAfterPrefix(a[1..], c, b);
    }
  }

  /** The first piece of a split is everything before the first separator. */
  lemma SplitFirst(a: string, c: char, b: string)
    requires c !in a
    ensures Split(a + [c] + b, c)[0] == a
  {
    IndexOfAfterPrefix(a, c, b);
    assert (a + [c] + b)[..|a|] == a;
  }

  /** Appending a piece appends the separator and the piece. */
  lemma {:induction false} JoinAppend(xs: seq<string>, x: string, sep: string)
    requires xs != []
    ensures Join(xs + [x], sep) == Join(xs, sep) + sep + x
  {
    if |xs| == 1 {
      assert (xs + [x])[1..] == [x];
    } else {
      assert (xs + [x])[1..] == xs[1..] + [x];
      JoinAppend(xs[1..], x, sep);
    }
  }

  /** Joining with a separator is associative in the way a path builder
      relies on: gluing the last two pieces first gives the same string. */
  lemma {:induction false} JoinLastTwo(xs: seq<string>, a: string, b: string, sep: string)
    ensures Join(xs + [a + sep + b], sep) == Join(xs + [a, b], sep)
  {
    if xs != [] {
      JoinLastTwo(xs[1..], a, b, sep);
      assert (xs + [a + sep + b])[1..] == xs[1..] + [a + sep + b];
      assert (xs + [a, b])[1..] == xs[1..] + [a, b];
    }
  }

  /** `s.replace(c, '')` with a one-character string pattern: only the first
      occurrence is removed. */
  function RemoveFirst(s: string, c: char): (r: string)
    ensures c !in s ==> r == s
    ensures c in s ==> |r| == |s| - 1
  {
    var k := IndexOf(s, c);
    if k.None? then s else s[..k.value] + s[k.value + 1..]
  }

  /** `s.replace(/x/g, y)` for single characters. */
  function ReplaceAll(s: string, x: char, y: char): (r: string)
    ensures |r| == |s|
    ensures x != y ==> x !in r
  {
    seq(|s|, i requires 0 <= i < |s| => if s[i] == x then y else s[i])
  }

  function DigitChar(d: nat): char
    requires d < 10
  {
    ('0' as int + d) as char
  }

  function DigitValue(c: char): nat
    requires IsDigit(c)
  {
    c as int - '0' as int
  }

  /** `n.toString()` for a non-negative integer. */
  function NatToString(n: nat): (r: string)
    ensures |r| >= 1
    ensures forall i :: 0 <= i < |r| ==> IsDigit(r[i])
  {
    if n < 10 then [DigitChar(n)] else NatToString(n / 10) + [DigitChar(n % 10)]
  }

  /** `n.toString()` for any integer. */
  function IntToString(n: int): (r: string)
    ensures |r| >= 1
  {
    if n < 0 then "-" + NatToString(-n) else NatToString(n)
  }

  /** The value of a string of decimal digits. */
  function DigitsValue(s: string): nat
    requires forall i :: 0 <= i < |s| ==> IsDigit(s[i])
  {
    if s == [] then 0 else DigitsValue(s[..|s| - 1]) * 10 + DigitValue(s[|s| - 1])
  }

  lemma {:induction false} DigitsValueOfNatToString(n: nat)
    ensures DigitsValue(NatToString(n)) == n
  {
    if n >= 10 {
      var s := NatToString(n);
      assert s[..|s| - 1] == NatToString(n / 10);
      DigitsValueOfNatToString(n / 10);
    }
  }

  /** Numbers below 10^k are written with at most k digits. */
  lemma {:induction false} NatToStringLength(n: nat, k: nat)
    requires n < Pow10(k)
    requires k >= 1
    ensures |NatToString(n)| <= k
  {
    if n >= 10 {
      NatToStringLength(n / 10, k - 1);
    }
  }

  /** Numbers at or above 10^(k-1) are written with at least k digits. */
  lemma {:induction false} NatToStringLengthAtLeast(n: nat, k: nat)
    requires k >= 1 && n >= Pow10(k - 1)
    ensures |NatToString(n)| >= k
  {
    if k > 1 {
      NatToStringLengthAtLeast(n / 10, k - 1);
    }
  }

  function Pow10(k: nat): (r: nat)
    ensures r >= 1
  {
    if k == 0 then 1 else 10 * Pow10(k - 1)
  }

  /** The longest prefix of decimal digits. */
  function DigitPrefix(s: string): (r: string)
    ensures r <= s
    ensures forall i :: 0 <= i < |r| ==> IsDigit(r[i])
    ensures |r| < |s| ==> !IsDigit(s[|r|])
  {
    if s != [] && IsDigit(s[0]) then [s[0]] + DigitPrefix(s[1..]) else []
  }

  /** `parseInt(s, 10)`: leading white space and one sign are skipped, the
      longest run of digits that follows is read, and `None` stands for
      `NaN` (no digit at all). */
  function JsParseInt(s: string): (r: Option<int>)
  {
    var t := TrimStart(s);
    var negative := t != [] && t[0] == '-';
    var body := if t != [] && (t[0] == '-' || t[0] == '+') then t[1..] else t;
    var digits := DigitPrefix(body);
    if digits == [] then None
    else
      var v: int := DigitsValue(digits);
      Some(if negative then -v else v)
  }

  predicate IsHexDigit(c: char)
  {
    IsDigit(c) || 'a' <= c <= 'f' || 'A' <= c <= 'F'
  }

  function HexDigitValue(c: char): (v: nat)
    requires IsHexDigit(c)
    ensures v < 16
    ensures IsDigit(c) ==> v == DigitValue(c)
  {
    if IsDigit(c) then DigitValue(c)
    else if 'a' <= c <= 'f' then c as int - 'a' as int + 10
    else c as int - 'A' as int + 10
  }

  function HexPrefix(s: string): (r: string)
    ensures r <= s
    ensures forall i :: 0 <= i < |r| ==> IsHexDigit(r[i])
    ensures |r| < |s| ==> !IsHexDigit(s[|r|])
  {
    if s != [] && IsHexDigit(s[0]) then [s[0]] + HexPrefix(s[1..]) else []
  }

  function HexValue(s: string): nat
    requires forall i :: 0 <= i < |s| ==> IsHexDigit(s[i])
  {
    if s == [] then 0 else HexValue(s[..|s| - 1]) * 16 + HexDigitValue(s[|s| - 1])
  }

  predicate HasHexPrefix(s: string)
  {
    |s| >= 2 && s[0] == '0' && (s[1] == 'x' || s[1] == 'X')
  }

  /** `parseInt(s)` with no radix: as `parseInt(s, 10)`, except that a
      `0x` or `0X` after the white space and the sign switches to base 16
      and is skipped; with no hexadecimal digit after it the result is
      `NaN`. */
  function JsParseIntNoRadix(s: string): (r: Option<int>)
  {
    var t := TrimStart(s);
    var negative := t != [] && t[0] == '-';
    var body := if t != [] && (t[0] == '-' || t[0] == '+') then t[1..] else t;
    if HasHexPrefix(body) then
      var digits := HexPrefix(body[2..]);
      if digits == [] then None
      else
        var v: int := HexValue(digits);
        Some(if negative then -v else v)
    else JsParseInt(s)
  }

  /** Without a radix, `parseInt` still reads back every integer `toString`
      wrote: no decimal numeral starts with `0x`. */
  lemma ParseIntNoRadixOfIntString(n: int)
    ensures JsParseIntNoRadix(IntToString(n)) == Some(n)
  {
    var s := IntToString(n);
    ParseIntOfIntString(n);
    var t := TrimStart(s);
    var body := if t != [] && (t[0] == '-' || t[0] == '+') then t[1..] else t;
    if n >= 0 {
      assert s == NatToString(n);
      assert t == s by { assert IsDigit(s[0]); }
      assert body == s by { assert IsDigit(s[0]); }
      assert !HasHexPrefix(body) by {
        if |body| >= 2 { assert IsDigit(body[1]); }
      }
    } else {
      var m := NatToString(-n);
      assert s == "-" + m;
      assert t == s;
      assert body == m;
      assert !HasHexPrefix(body) by {
        if |body| >= 2 { assert IsDigit(m[1]); }
      }
    }
  }

  /** Where the two readings part: `parseInt("0x1f")` is 31, while
      `parseInt("0x1f", 10)` reads the `0` and stops at the `x`. */
  lemma ParseIntNoRadixHex()
    ensures JsParseIntNoRadix("0x1f") == Some(31)
    ensures JsParseInt("0x1f") == Some(0)
  {
    assert TrimStart("0x1f") == "0x1f";
    assert "0x1f"[2..] == "1f";
    HexDigitsOf1f();
    DecimalDigitsOf0x1f();
  }

  /** The hexadecimal run of "1f" is all of it, worth 31. */
  lemma HexDigitsOf1f()
    ensures HexPrefix("1f") == "1f"
    ensures HexValue("1f") == 31
  {
    assert "1f"[1..] == "f";
    assert HexPrefix("f"[1..]) == [];
    assert HexPrefix("1f"[1..]) == "f";
    assert "1f"[..1] == "1";
    assert "1"[..0] == [];
    assert HexValue("1") == 1;
  }

  /** The decimal run of "0x1f" is the lone "0", worth 0. */
  lemma DecimalDigitsOf0x1f()
    ensures DigitPrefix("0x1f") == "0"
    ensures DigitsValue("0") == 0
  {
    assert "0x1f"[1..] == "x1f";
    assert DigitPrefix("x1f") == [];
    assert "0"[..0] == [];
  }

  /** `parseInt` reads back what `toString` wrote, whatever follows the
      digits after a non-digit. */
  lemma ParseIntOfNatString(n: nat, rest: string)
    requires rest == [] || !IsDigit(rest[0])
    ensures JsParseInt(NatToString(n) + rest) == Some(n)
  {
    var s := NatToString(n) + rest;
    assert TrimStart(s) == s by {
      assert IsDigit(s[0]);
      assert !IsSpace(s[0]);
    }
    DigitPrefixOfDigits(NatToString(n), rest);
    DigitsValueOfNatToString(n);
  }

  /** `parseInt` reads back any integer `toString` wrote, sign included. */
  lemma ParseIntOfIntString(n: int)
    ensures JsParseInt(IntToString(n)) == Some(n)
  {
    if n >= 0 {
      ParseIntOfNatString(n, []);
      assert NatToString(n) + [] == NatToString(n);
    } else {
      ParseIntOfNegative(-n);
    }
  }

  lemma ParseIntOfNegative(m: nat)
    ensures JsParseInt("-" + NatToString(m)) == Some(-(m as int))
  {
    var d := NatToString(m);
    var s := "-" + d;
    assert TrimStart(s) == s by {
      assert s[0] == '-' && !IsSpace(s[0]);
    }
    assert s[1..] == d;
    assert DigitPrefix(d) == d by {
      DigitPrefixOfDigits(d, []);
      assert d + [] == d;
    }
    DigitsValueOfNatToString(m);
  }

  lemma {:induction false} DigitPrefixOfDigits(d: string, rest: string)
    requires forall i :: 0 <= i < |d| ==> IsDigit(d[i])
    requires rest == [] || !IsDigit(rest[0])
    ensures DigitPrefix(d + rest) == d
  {
    if d != [] {
      assert (d + rest)[1..] == d[1..] + rest;
      DigitPrefixOfDigits(d[1..], rest);
    } else {
      assert d + rest == rest;
    }
  }

  /** `k` copies of `c`. */
  function Repeat(c: char, k: nat): (r: string)
    ensures |r| == k
    ensures forall i :: 0 <= i < k ==> r[i] == c
  {
    seq(k, _ => c)
  }

  /** `s.padStart(n, c)`. */
  function PadStart(s: string, n: nat, c: char): (r: string)
    ensures |r| == if |s| < n then n else |s|
    ensures EndsWith(r, s)
    ensures forall i :: 0 <= i < |r| - |s| ==> r[i] == c
  {
    if |s| < n then
      var pad := Repeat(c, n - |s|);
      assert (pad + s)[|pad|..] == s;
      pad + s
    else s
  }

  /** A leading zero does not change the value of a digit string. */
  lemma {:induction false} DigitsValueLeadingZero(s: string)
    requires forall i :: 0 <= i < |s| ==> IsDigit(s[i])
    ensures DigitsValue(['0'] + s) == DigitsValue(s)
    decreases |s|
  {
    if s != [] {
      var t := ['0'] + s;
      assert t[..|t| - 1] == ['0'] + s[..|s| - 1];
      DigitsValueLeadingZero(s[..|s| - 1]);
    }
  }

  /** Leading zeros do not change the value of a digit string. */
  lemma ZerosDigits(k: nat, s: string)
    requires forall i :: 0 <= i < |s| ==> IsDigit(s[i])
    ensures forall i :: 0 <= i < |Repeat('0', k) + s| ==> IsDigit((Repeat('0', k) + s)[i])
  {
  }

  lemma {:induction false} ZerosValue(k: nat, s: string)
    requires forall i :: 0 <= i < |s| ==> IsDigit(s[i])
    ensures forall i :: 0 <= i < |Repeat('0', k) + s| ==> IsDigit((Repeat('0', k) + s)[i])
    ensures DigitsValue(Repeat('0', k) + s) == DigitsValue(s)
  {
    ZerosDigits(k, s);
    if k > 0 {
      ZerosValue(k - 1, s);
      var t := Repeat('0', k - 1) + s;
      assert Repeat('0', k) + s == ['0'] + t by {
        assert Repeat('0', k) == ['0'] + Repeat('0', k - 1);
      }
      DigitsValueLeadingZero(t);
    } else {
      assert Repeat('0', k) + s == s;
    }
  }

  /** Padding a digit string with zeros keeps it a digit string of the same
      value. */
  lemma PadZerosValue(s: string, n: nat)
    requires forall i :: 0 <= i < |s| ==> IsDigit(s[i])
    ensures forall i :: 0 <= i < |PadStart(s, n, '0')| ==> IsDigit(PadStart(s, n, '0')[i])
    ensures DigitsValue(PadStart(s, n, '0')) == DigitsValue(s)
  {
    if |s| < n {
      ZerosValue(n - |s|, s);
    }
  }

  /** `s.slice(-n)` for n > 0: the last n characters, or all of a shorter
      string. */
  function SliceLast(s: string, n: nat): (r: string)
    ensures |r| == if n < |s| then n else |s|
    ensures EndsWith(s, r)
  {
    if n < |s| then s[|s| - n..] else s
  }
}
