/** The text primitives of Go's `strings` and `strconv` that the annotation codec, the replica IDs
    and the XID lists are written in, with the round trips the rest of the model relies on. */
module Text {

  datatype Option<+T> = None | Some(value: T)

  // ---------- splitting and joining ----------

  /** strings.Split for a one-character separator: always at least one piece. */
  function Split(s: string, sep: char): (pieces: seq<string>)
    ensures |pieces| >= 1
  {
    if s == "" then
      [""]
    else
      var rest := Split(s[1..], sep);
      if s[0] == sep then [""] + rest else [[s[0]] + rest[0]] + rest[1..]
  }

  /** strings.Join. */
  function Join(pieces: seq<string>, sep: string): string {
    if |pieces| == 0 then ""
    else if |pieces| == 1 then pieces[0]
    else pieces[0] + sep + Join(pieces[1..], sep)
  }

  ghost predicate AllClean(pieces: seq<string>, sep: char) {
    forall k :: 0 <= k < |pieces| ==> sep !in pieces[k]
  }

  lemma {:induction false} SplitClean(s: string, sep: char)
    requires sep !in s
    ensures Split(s, sep) == [s]
  {
    if s != "" {
      SplitClean(s[1..], sep);
      assert s == [s[0]] + s[1..];
    }
  }

  /** Cutting after a clean head leaves the split of what follows the separator. */
  lemma {:induction false} SplitHead(head: string, tail: string, sep: char)
    requires sep !in head
    ensures Split(head + [sep] + tail, sep) == [head] + Split(tail, sep)
  {
    var s := head + [sep] + tail;
    if head == "" {
      assert s[1..] == tail;
    } else {
      assert s[1..] == head[1..] + [sep] + tail;
      SplitHead(head[1..], tail, sep);
      assert head == [head[0]] + head[1..];
    }
  }

  /** Split undoes Join on any non-empty list of separator-free pieces. */
  lemma {:induction false} SplitJoin(pieces: seq<string>, sep: char)
    requires |pieces| >= 1 && AllClean(pieces, sep)
    ensures Split(Join(pieces, [sep]), sep) == pieces
  {
    if |pieces| == 1 {
      SplitClean(pieces[0], sep);
    } else {
      SplitJoin(pieces[1..], sep);
      SplitHead(pieces[0], Join(pieces[1..], [sep]), sep);
    }
  }

  /** Join undoes Split on every string, and the pieces are separator-free. */
  lemma {:induction false} JoinSplit(s: string, sep: char)
    ensures Join(Split(s, sep), [sep]) == s
    ensures AllClean(Split(s, sep), sep)
  {
    if s != "" {
      JoinSplit(s[1..], sep);
      var rest := Split(s[1..], sep);
      assert s == [s[0]] + s[1..];
      if s[0] == sep {
        assert ([""] + rest)[1..] == rest;
      } else {
        var r := [[s[0]] + rest[0]] + rest[1..];
        if |rest| > 1 { assert r[1..] == rest[1..]; }
        assert sep !in rest[0];
      }
    }
  }

  /** A character absent from a string is absent from its pieces. */
  lemma {:induction false} AbsentFromPieces(s: string, sep: char, c: char)
    requires c !in s
    ensures AllClean(Split(s, sep), c)
  {
    if s != "" {
      AbsentFromPieces(s[1..], sep, c);
      var rest := Split(s[1..], sep);
      assert c !in rest[0];
    }
  }

  /** Appending one more piece to a joined list. */
  lemma {:induction false} JoinSnoc(pieces: seq<string>, last: string, sep: string)
    ensures Join(pieces + [last], sep) == if pieces == [] then last else Join(pieces, sep) + sep + last
  {
    if |pieces| > 1 {
      JoinSnoc(pieces[1..], last, sep);
      assert (pieces + [last])[1..] == pieces[1..] + [last];
    } else if |pieces| == 1 {
      assert (pieces + [last])[1..] == [last];
    }
  }

  // ---------- decimal numbers ----------

  predicate IsDigit(c: char) { '0' <= c <= '9' }

  function DigitValue(c: char): nat
    requires IsDigit(c)
  {
    c as nat - '0' as nat
  }

  function DigitChar(d: nat): (c: char)
    requires d < 10
    ensures IsDigit(c) && DigitValue(c) == d
  {
    '0' + d as char
  }

  ghost predicate AllDigits(s: string) {
    forall k :: 0 <= k < |s| ==> IsDigit(s[k])
  }

  /** The decimal form strconv.Itoa and %d print for a non-negative number. */
  function Digits(n: nat): (s: string)
    ensures |s| >= 1 && AllDigits(s)
  {
    if n < 10 then [DigitChar(n)] else Digits(n / 10) + [DigitChar(n % 10)]
  }

  /** strconv.Itoa. */
  function FormatInt(i: int): string {
    if i < 0 then "-" + Digits(-i) else Digits(i)
  }

  datatype Scan = Value(n: nat) | SyntaxError | RangeError

  /** strconv.ParseUint in base 10 after the empty-string test: characters are read left to right,
      and the first bad character or the first overflow of `max` decides the error. */
  function ScanUint(s: string, acc: nat, max: nat): Scan {
    if s == "" then Value(acc)
    else if !IsDigit(s[0]) then SyntaxError
    else
      var n := acc * 10 + DigitValue(s[0]);
      if n > max then RangeError else ScanUint(s[1..], n, max)
  }

  function ParseUint(s: string, max: nat): Scan {
    if s == "" then SyntaxError else ScanUint(s, 0, max)
  }

  const MAX_UINT32: nat := 0xFFFF_FFFF
  const MAX_UINT64: nat := 0xFFFF_FFFF_FFFF_FFFF

  newtype int32 = x: int | -0x8000_0000 <= x < 0x8000_0000

  /** strconv.ParseInt(s, 10, 32) with its error dropped, as the annotation decoder uses it: a
      malformed number reads as 0 and one out of range reads as the nearest int32. */
  function ParseInt32(s: string): int32 {
    if s == "" then 0
    else
      var neg := s[0] == '-';
      match ParseUint(if neg || s[0] == '+' then s[1..] else s, MAX_UINT32)
      case SyntaxError => 0
      case RangeError => if neg then -0x8000_0000 else 0x7FFF_FFFF
      case Value(n) =>
        if neg then (if n > 0x8000_0000 then -0x8000_0000 else (0 as int - n) as int32)
        else if n >= 0x8000_0000 then 0x7FFF_FFFF else n as int32
  }

  /** strconv.Atoi: a 64-bit signed number, or nothing. */
  function Atoi(s: string): Option<int> {
    if s == "" then None
    else
      var neg := s[0] == '-';
      match ParseUint(if neg || s[0] == '+' then s[1..] else s, MAX_UINT64)
      case Value(n) =>
        if neg then (if n <= 0x8000_0000_0000_0000 then Some(0 as int - n) else None)
        else if n < 0x8000_0000_0000_0000 then Some(n) else None
      case _ => None
  }

  /** The value the scan leaves after reading `s` on top of `acc`. */
  ghost function Horner(s: string, acc: nat): nat
    requires AllDigits(s)
  {
    if s == "" then acc else Horner(s[1..], acc * 10 + DigitValue(s[0]))
  }

  lemma {:induction false} HornerGrows(s: string, acc: nat)
    requires AllDigits(s)
    ensures acc <= Horner(s, acc)
  {
    if s != "" { HornerGrows(s[1..], acc * 10 + DigitValue(s[0])); }
  }

  lemma {:induction false} HornerAppend(a: string, b: string, acc: nat)
    requires AllDigits(a) && AllDigits(b)
    ensures Horner(a + b, acc) == Horner(b, Horner(a, acc))
  {
    if a == "" {
      assert a + b == b;
    } else {
      assert (a + b)[1..] == a[1..] + b;
      HornerAppend(a[1..], b, acc * 10 + DigitValue(a[0]));
    }
  }

  lemma {:induction false} HornerSnoc(s: string, c: char, acc: nat)
    requires AllDigits(s) && IsDigit(c)
    ensures Horner(s + [c], acc) == Horner(s, acc) * 10 + DigitValue(c)
  {
    if s == "" {
      assert (s + [c])[1..] == "";
    } else {
      assert (s + [c])[1..] == s[1..] + [c];
      HornerSnoc(s[1..], c, acc * 10 + DigitValue(s[0]));
    }
  }

  lemma {:induction false} HornerDigits(n: nat)
    ensures Horner(Digits(n), 0) == n
  {
    if n < 10 {
      assert Digits(n)[1..] == "";
    } else {
      HornerDigits(n / 10);
      HornerSnoc(Digits(n / 10), DigitChar(n % 10), 0);
    }
  }

  lemma {:induction false} ScanIsHorner(s: string, acc: nat, max: nat)
    requires AllDigits(s) && acc <= max
    ensures ScanUint(s, acc, max) == if Horner(s, acc) <= max then Value(Horner(s, acc)) else RangeError
  {
    if s != "" {
      var n := acc * 10 + DigitValue(s[0]);
      HornerGrows(s[1..], n);
      if n <= max { ScanIsHorner(s[1..], n, max); }
    }
  }

  /** Printing then parsing is the identity exactly while the number fits. */
  lemma ParseUintDigits(n: nat, max: nat)
    ensures ParseUint(Digits(n), max) == if n <= max then Value(n) else RangeError
  {
    HornerDigits(n);
    ScanIsHorner(Digits(n), 0, max);
  }

  /** A digit's value is its place in the decimal alphabet. */
  lemma DigitPlace(c: char)
    requires IsDigit(c)
    ensures 0 <= DigitValue(c) < 10 && "0123456789"[DigitValue(c)] == c
  {}

  /** Reading digits followed by anything else, or by nothing: an overflow is reported before a bad
      character is seen, and the value is the decimal one. */
  lemma {:induction false} ScanMixed(digits: string, tail: string, acc: nat, max: nat)
    requires AllDigits(digits) && acc <= max && (tail == "" || !IsDigit(tail[0]))
    ensures ScanUint(digits + tail, acc, max) ==
      if Horner(digits, acc) > max then RangeError
      else if tail != "" then SyntaxError
      else Value(Horner(digits, acc))
  {
    if digits == "" {
      assert digits + tail == tail;
    } else {
      var s := digits + tail;
      assert s[0] == digits[0] && s[1..] == digits[1..] + tail;
      var n := acc * 10 + DigitValue(digits[0]);
      HornerGrows(digits[1..], n);
      if n <= max { ScanMixed(digits[1..], tail, n, max); }
    }
  }

  /** The number an optional sign and digits stand for. */
  ghost function Signed(sign: string, digits: string): int
    requires AllDigits(digits)
  {
    var n: int := Horner(digits, 0);
    if sign == "-" then -n else n
  }

  /** A text is cut into an optional sign, the digits after it, and what follows them. */
  ghost predicate Cut(sign: string, digits: string, tail: string) {
    && sign in {"", "-", "+"} && AllDigits(digits) && (tail == "" || !IsDigit(tail[0]))
    && (sign == "" && digits == "" && tail != "" ==> tail[0] != '-' && tail[0] != '+')
  }

  /** What the sign handling of both parsers leaves to ParseUint. */
  lemma Unsigned(sign: string, digits: string, tail: string, max: nat)
    requires Cut(sign, digits, tail)
    ensures var s := sign + digits + tail;
      && (s != "" && s[0] == '-' <==> sign == "-")
      && (s != "" ==>
            ParseUint(if s[0] == '-' || s[0] == '+' then s[1..] else s, max) ==
            if Horner(digits, 0) > max then RangeError
            else if tail != "" || digits == "" then SyntaxError
            else Value(Horner(digits, 0)))
  {
    var s := sign + digits + tail;
    ScanMixed(digits, tail, 0, max);
    if sign == "" {
      assert s == digits + tail;
      assert digits != "" ==> s[0] == digits[0];
    } else {
      assert s[0] == sign[0] && s[1..] == digits + tail;
    }
  }

  /** The decoder's numbers, for every text: digits with an optional sign read as their value, clamped to
      int32; anything malformed reads as 0, unless the digits before the bad character already
      overflow. */
  lemma ParseInt32Meaning(sign: string, digits: string, tail: string)
    requires Cut(sign, digits, tail)
    ensures var (i, v) := (ParseInt32(sign + digits + tail) as int, Signed(sign, digits));
      if Horner(digits, 0) <= 0xFFFF_FFFF && (tail != "" || digits == "") then i == 0
      else if v > 0x7FFF_FFFF then i == 0x7FFF_FFFF
      else if v < -0x8000_0000 then i == -0x8000_0000
      else i == v
  {
    Unsigned(sign, digits, tail, MAX_UINT32);
    if sign + digits + tail == "" { assert digits == ""; }
  }

  /** strconv.Atoi, for every text: a value exactly for an optional sign, at least one digit, nothing
      else, and no overflow of 64 bits. */
  lemma AtoiMeaning(sign: string, digits: string, tail: string)
    requires Cut(sign, digits, tail)
    ensures var v := Signed(sign, digits);
      Atoi(sign + digits + tail) ==
      if digits != "" && tail == "" && -0x8000_0000_0000_0000 <= v < 0x8000_0000_0000_0000 then Some(v) else None
  {
    Unsigned(sign, digits, tail, MAX_UINT64);
    if sign + digits + tail == "" { assert digits == ""; }
  }

  ghost function Pow10(k: nat): nat { if k == 0 then 1 else 10 * Pow10(k - 1) }

  lemma FiveMore(k: nat)
    ensures Pow10(k + 5) == 100_000 * Pow10(k)
  {
    assert Pow10(k + 1) == 10 * Pow10(k);
    assert Pow10(k + 2) == 10 * Pow10(k + 1);
    assert Pow10(k + 3) == 10 * Pow10(k + 2);
    assert Pow10(k + 4) == 10 * Pow10(k + 3);
  }

  lemma {:induction false} DigitsLength(n: nat, k: nat)
    requires k > 0 && n < Pow10(k)
    ensures |Digits(n)| <= k
  {
    assert Pow10(1) == 10;
    if n >= 10 { DigitsLength(n / 10, k - 1); }
  }

  /** A number of 64 bits has at most 20 digits. */
  lemma Digits64(n: nat)
    requires n <= MAX_UINT64
    ensures |Digits(n)| <= 20
  {
    assert Pow10(0) == 1;
    hide Pow10;
    FiveMore(0);
    FiveMore(5);
    FiveMore(10);
    FiveMore(15);
    DigitsLength(n, 20);
  }

  lemma DigitsInjective(m: nat, n: nat)
    requires Digits(m) == Digits(n)
    ensures m == n
  {
    HornerDigits(m);
    HornerDigits(n);
  }

  /** Every int32 survives strconv.Itoa followed by strconv.ParseInt. */
  lemma ParseFormatInt32(i: int32)
    ensures ParseInt32(FormatInt(i as int)) == i
  {
    var k := i as int;
    if k < 0 {
      assert FormatInt(k)[1..] == Digits(-k);
      ParseUintDigits(-k, MAX_UINT32);
    } else {
      assert IsDigit(Digits(k)[0]);
      ParseUintDigits(k, MAX_UINT32);
    }
  }

  lemma FormatIntInjective(i: int, j: int)
    requires FormatInt(i) == FormatInt(j)
    ensures i == j
  {
    assert IsDigit(Digits(if i < 0 then -i else i)[0]) && IsDigit(Digits(if j < 0 then -j else j)[0]);
    assert i < 0 ==> FormatInt(i)[1..] == Digits(-i);
    assert j < 0 ==> FormatInt(j)[1..] == Digits(-j);
    DigitsInjective(if i < 0 then -i else i, if j < 0 then -j else j);
  }

  ghost predicate LastAt(s: string, p: nat, sep: char) {
    p < |s| && s[p] == sep && forall k :: p < k < |s| ==> s[k] != sep
  }

  lemma LastSep(x: string, t: string, sep: char)
    requires sep !in t
    ensures LastAt(x + [sep] + t, |x|, sep)
  {}

  /** A separator-free tail can be read off behind the last separator. */
  lemma AfterLastSep(x: string, t: string, y: string, u: string, sep: char)
    requires sep !in t && sep !in u && x + [sep] + t == y + [sep] + u
    ensures x == y && t == u
  {
    var s := x + [sep] + t;
    LastSep(x, t, sep);
    LastSep(y, u, sep);
    assert |x| == |y|;
    assert x == s[..|x|] && y == s[..|y|] && t == s[|x| + 1..] && u == s[|y| + 1..];
  }

  /** A printed int holds only a sign and digits, so no separator. */
  lemma FormatIntClean(i: int, sep: char)
    requires !IsDigit(sep) && sep != '-'
    ensures sep !in FormatInt(i)
  {}

  // ---------- trimming ----------

  predicate IsSpace(c: char) { c in {' ', '\t', '\n', '\r', '\U{000B}', '\U{000C}'} }

  function TrimLeft(s: string, cut: char -> bool): string {
    if s != "" && cut(s[0]) then TrimLeft(s[1..], cut) else s
  }

  function TrimRight(s: string, cut: char -> bool): string {
    if s != "" && cut(s[|s| - 1]) then TrimRight(s[..|s| - 1], cut) else s
  }

  function Trim(s: string, cut: char -> bool): string { TrimRight(TrimLeft(s, cut), cut) }

  /** strings.TrimSpace, for ASCII white space. */
  function TrimSpace(s: string): string { Trim(s, IsSpace) }

  ghost predicate AllCut(s: string, cut: char -> bool) { forall k :: 0 <= k < |s| ==> cut(s[k]) }

  lemma {:induction false} TrimLeftMeaning(s: string, cut: char -> bool) returns (before: string)
    ensures s == before + TrimLeft(s, cut) && AllCut(before, cut)
    ensures TrimLeft(s, cut) == "" || !cut(TrimLeft(s, cut)[0])
  {
    before := "";
    if s != "" && cut(s[0]) {
      var rest := TrimLeftMeaning(s[1..], cut);
      before := [s[0]] + rest;
    }
  }

  lemma {:induction false} TrimRightMeaning(s: string, cut: char -> bool) returns (after: string)
    ensures s == TrimRight(s, cut) + after && AllCut(after, cut)
    ensures TrimRight(s, cut) == "" || !cut(TrimRight(s, cut)[|TrimRight(s, cut)| - 1])
    ensures TrimRight(s, cut) == "" || TrimRight(s, cut)[0] == s[0]
  {
    after := "";
    if s != "" && cut(s[|s| - 1]) {
      var rest := TrimRightMeaning(s[..|s| - 1], cut);
      after := rest + [s[|s| - 1]];
    }
  }

  /** Trimming removes a run of cut characters at each end and stops at the first other one. */
  lemma TrimMeaning(s: string, cut: char -> bool) returns (before: string, after: string)
    ensures var t := Trim(s, cut);
      && s == before + t + after && AllCut(before, cut) && AllCut(after, cut)
      && (t == "" || (!cut(t[0]) && !cut(t[|t| - 1])))
  {
    before := TrimLeftMeaning(s, cut);
    after := TrimRightMeaning(TrimLeft(s, cut), cut);
    assert s == before + (Trim(s, cut) + after);
  }

  /** Trimming a padded text gives back its core. */
  lemma {:induction false} TrimPadded(before: string, core: string, after: string, cut: char -> bool)
    requires AllCut(before, cut) && AllCut(after, cut)
    requires core == "" || (!cut(core[0]) && !cut(core[|core| - 1]))
    ensures Trim(before + core + after, cut) == core
  {
    TrimLeftPadded(before, core + after, cut);
    assert before + core + after == before + (core + after);
    if core == "" {
      assert core + after == after;
      TrimLeftAll(after, cut);
    } else {
      assert TrimLeft(core + after, cut) == core + after;
      TrimRightPadded(core, after, cut);
    }
  }

  lemma {:induction false} TrimLeftPadded(before: string, rest: string, cut: char -> bool)
    requires AllCut(before, cut)
    ensures TrimLeft(before + rest, cut) == TrimLeft(rest, cut)
  {
    if before == "" {
      assert before + rest == rest;
    } else {
      assert (before + rest)[1..] == before[1..] + rest;
      TrimLeftPadded(before[1..], rest, cut);
    }
  }

  lemma {:induction false} TrimLeftAll(s: string, cut: char -> bool)
    requires AllCut(s, cut)
    ensures TrimLeft(s, cut) == ""
  {
    if s != "" { TrimLeftAll(s[1..], cut); }
  }

  lemma {:induction false} TrimRightPadded(rest: string, after: string, cut: char -> bool)
    requires AllCut(after, cut) && rest != "" && !cut(rest[|rest| - 1])
    ensures TrimRight(rest + after, cut) == rest
  {
    if after == "" {
      assert rest + after == rest;
    } else {
      assert (rest + after)[..|rest + after| - 1] == rest + after[..|after| - 1];
      TrimRightPadded(rest, after[..|after| - 1], cut);
    }
  }

  // ---------- substrings ----------

  /** strings.Contains. */
  predicate Contains(s: string, sub: string) {
    sub <= s || (s != "" && Contains(s[1..], sub))
  }

  ghost predicate OccursAt(s: string, sub: string, i: nat) { i + |sub| <= |s| && s[i..i + |sub|] == sub }

  lemma OccursTail(s: string, sub: string, i: nat)
    requires s != ""
    ensures OccursAt(s, sub, i + 1) <==> OccursAt(s[1..], sub, i)
  {
    if i + 1 + |sub| <= |s| {
      var here, there := s[i + 1..i + 1 + |sub|], s[1..][i..i + |sub|];
      assert forall q :: 0 <= q < |sub| ==> here[q] == there[q];
      assert here == there;
    }
  }

  /** Containing a text is having it somewhere. */
  lemma {:induction false} ContainsIff(s: string, sub: string)
    ensures Contains(s, sub) <==> exists i: nat :: OccursAt(s, sub, i)
  {
    if sub <= s {
      assert OccursAt(s, sub, 0);
    } else if s != "" {
      ContainsIff(s[1..], sub);
      if i: nat :| OccursAt(s[1..], sub, i) {
        OccursTail(s, sub, i);
        assert OccursAt(s, sub, i + 1);
      }
      if i: nat :| OccursAt(s, sub, i) {
        assert !OccursAt(s, sub, 0);
        OccursTail(s, sub, i - 1);
        assert OccursAt(s[1..], sub, i - 1);
      }
    } else {
      forall i: nat ensures !OccursAt(s, sub, i) {}
    }
  }

  /** A substring that starts with a character absent from `s` does not occur in it. */
  lemma {:induction false} NotContained(s: string, sub: string)
    requires sub != "" && sub[0] !in s
    ensures !Contains(s, sub)
  {
    if s != "" {
      assert s[0] in s;
      NotContained(s[1..], sub);
    }
  }
}
