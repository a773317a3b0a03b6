/** The C string operations that the codecs rely on (strstr, strchr, strtok_r, isspace,
    strcasecmp, strtoul, atoi and the integer formats of snprintf), as functions on sequences of
    characters. A search stops at a NUL because it is given the part of the buffer before it.
    Numbers are as wide as on the platforms that the source is built for: 64 bits for unsigned
    long. */
module CText {
  import opened Options

  const ULONG_MAX: nat := 0xFFFF_FFFF_FFFF_FFFF
  const CRLF: string := ['\r', '\n']

  predicate At(s: string, pat: string, i: int) {
    0 <= i && i + |pat| <= |s| && s[i..i + |pat|] == pat
  }

  /** The first place of `pat` in `s`. */
  function Find(s: string, pat: string): (r: Option<nat>)
    ensures r.Some? ==> At(s, pat, r.value) && forall i :: 0 <= i < r.value ==> !At(s, pat, i)
    ensures r.None? ==> forall i :: !At(s, pat, i)
  {
    FindFrom(s, pat, 0)
  }

  function FindFrom(s: string, pat: string, from: nat): (r: Option<nat>)
    requires from <= |s| + 1 && forall i :: 0 <= i < from ==> !At(s, pat, i)
    ensures r.Some? ==> At(s, pat, r.value) && forall i :: 0 <= i < r.value ==> !At(s, pat, i)
    ensures r.None? ==> forall i :: !At(s, pat, i)
    decreases |s| + 1 - from
  {
    if from > |s| then None
    else if At(s, pat, from) then Some(from)
    else FindFrom(s, pat, from + 1)
  }

  lemma {:induction false} FindIs(s: string, pat: string, i: nat)
    requires At(s, pat, i) && forall j :: 0 <= j < i ==> !At(s, pat, j)
    ensures Find(s, pat) == Some(i)
  {
  }

  lemma {:induction false} NotAt(s: string, pat: string, i: nat, k: nat)
    requires k < |pat| && i + k < |s| && s[i + k] != pat[k]
    ensures !At(s, pat, i)
  {
    if i + |pat| <= |s| { assert s[i..i + |pat|][k] == s[i + k]; }
  }

  /** A search passes over a front in which nothing matches. */
  lemma {:induction false} FindAfter(front: string, s: string, pat: string, i: nat)
    requires forall j :: 0 <= j < |front| ==> !At(front + s, pat, j)
    requires Find(s, pat) == Some(i)
    ensures Find(front + s, pat) == Some(|front| + i)
  {
    var t := front + s;
    assert t[|front| + i..|front| + i + |pat|] == s[i..i + |pat|];
    forall j | 0 <= j < |front| + i ensures !At(t, pat, j) {
      if j >= |front| && j + |pat| <= |t| {
        assert t[j..j + |pat|] == s[j - |front|..j - |front| + |pat|];
        assert !At(s, pat, j - |front|);
      }
    }
    FindIs(t, pat, |front| + i);
  }

  /** The first place of `c` in `s`, or the length of `s`. */
  function IndexOf(s: string, c: char): (i: nat)
    ensures i <= |s| && c !in s[..i] && (i < |s| ==> s[i] == c)
  {
    if s == "" || s[0] == c then 0
    else
      var i := IndexOf(s[1..], c);
      assert s[..i + 1] == [s[0]] + s[1..][..i];
      i + 1
  }

  lemma {:induction false} IndexOfIs(a: string, c: char, rest: string)
    requires c !in a && (rest == "" || rest[0] == c)
    ensures IndexOf(a + rest, c) == |a|
  {
    if a == "" {
      assert a + rest == rest;
    } else {
      assert (a + rest)[1..] == a[1..] + rest;
      IndexOfIs(a[1..], c, rest);
    }
  }

  /** What the functions on NUL-terminated strings see of a buffer. */
  function UpToNul(s: string): string {
    s[..IndexOf(s, '\0')]
  }

  lemma {:induction false} UpToNulPrefix(a: string, b: string)
    requires '\0' !in a
    ensures UpToNul(a + b) == a + UpToNul(b)
  {
    var k := IndexOf(b, '\0');
    var front := a + b[..k];
    IndexOfIs(front, '\0', b[k..]);
    assert a + b == front + b[k..];
  }

  predicate IsSpace(c: char) {
    c == ' ' || '\t' <= c <= '\r'
  }

  function SkipBlank(s: string): string {
    if s != "" && IsSpace(s[0]) then SkipBlank(s[1..]) else s
  }

  function Lower(s: string): (r: string)
    ensures |r| == |s|
  {
    seq(|s|, i requires 0 <= i < |s| => if 'A' <= s[i] <= 'Z' then (s[i] as int + 32) as char else s[i])
  }

  /** strcasecmp finds no difference. */
  predicate SameName(a: string, b: string) {
    Lower(a) == Lower(b)
  }

  // ---------- Numbers ----------

  predicate IsDigit(c: char) {
    '0' <= c <= '9'
  }

  function Decimal(n: nat): (s: string)
    ensures s != "" && forall c :: c in s ==> IsDigit(c)
  {
    if n < 10 then [('0' as int + n) as char]
    else Decimal(n / 10) + [('0' as int + n % 10) as char]
  }

  function DecimalInt(n: int): string {
    if n < 0 then "-" + Decimal(-n) else Decimal(n)
  }

  /** The digits that start `s`, read after the digits worth `acc`. */
  function Digits(s: string, acc: nat): nat {
    if s == "" || !IsDigit(s[0]) then acc
    else Digits(s[1..], acc * 10 + (s[0] as int - '0' as int))
  }

  /** Too large a number reads as the largest one; a minus sign negates modulo 2^64. */
  function Strtoul(s: string): (n: nat) {
    var t := SkipBlank(s);
    var negative := t != "" && t[0] == '-';
    var d := Digits(if t != "" && (t[0] == '-' || t[0] == '+') then t[1..] else t, 0);
    if d > ULONG_MAX then ULONG_MAX
    else if negative then (ULONG_MAX + 1 - d) % (ULONG_MAX + 1)
    else d
  }

  function Atoi(s: string): int {
    var t := SkipBlank(s);
    var d: int := Digits(if t != "" && (t[0] == '-' || t[0] == '+') then t[1..] else t, 0);
    if t != "" && t[0] == '-' then 0 - d else d
  }

  lemma {:induction false} DigitsThen(a: string, b: string, acc: nat)
    requires forall c :: c in a ==> IsDigit(c)
    ensures Digits(a + b, acc) == Digits(b, Digits(a, acc))
  {
    if a == "" {
      assert a + b == b;
    } else {
      assert a[0] in a;
      assert (a + b)[1..] == a[1..] + b;
      DigitsThen(a[1..], b, acc * 10 + (a[0] as int - '0' as int));
    }
  }

  lemma {:induction false} DigitsOfDecimal(n: nat)
    ensures Digits(Decimal(n), 0) == n
  {
    if n >= 10 {
      DigitsOfDecimal(n / 10);
      var last := [('0' as int + n % 10) as char];
      DigitsThen(Decimal(n / 10), last, 0);
      assert last[1..] == "";
    }
  }

  lemma {:induction false} NumbersReadBack(n: nat)
    ensures n <= ULONG_MAX ==> Strtoul(Decimal(n)) == n
    ensures Atoi(DecimalInt(n)) == n && Atoi(DecimalInt(0 - n)) == 0 - n
  {
    DigitsOfDecimal(n);
    var s := Decimal(n);
    assert s[0] in s;
    assert SkipBlank(s) == s;
    var t := "-" + s;
    assert SkipBlank(t) == t && t[1..] == s;
  }

  // ---------- Words ----------

  function SkipSpaces(s: string): string {
    if s != "" && s[0] == ' ' then SkipSpaces(s[1..]) else s
  }

  /** strtok_r with the delimiter " ": the next word and what follows its delimiter. */
  function NextWord(s: string): Option<(string, string)> {
    var t := SkipSpaces(s);
    if t == "" then None
    else
      var i := IndexOf(t, ' ');
      Some((t[..i], if i < |t| then t[i + 1..] else ""))
  }

  /** A word that the tokeniser and the line searches leave whole. */
  predicate IsWord(s: string) {
    s != "" && ' ' !in s && '\r' !in s && '\0' !in s
  }

  lemma {:induction false} WordThenSpace(w: string, rest: string)
    requires w != "" && ' ' !in w
    ensures NextWord(w + " " + rest) == Some((w, rest))
  {
    var s := w + " " + rest;
    assert s == w + (" " + rest);
    assert s[0] == w[0] && w[0] in w;
    assert SkipSpaces(s) == s;
    IndexOfIs(w, ' ', " " + rest);
    assert s[..|w|] == w && s[|w| + 1..] == rest;
  }

  lemma {:induction false} LastWord(w: string)
    requires w != "" && ' ' !in w
    ensures NextWord(w) == Some((w, ""))
  {
    assert w[0] in w;
    IndexOfIs(w, ' ', "");
    assert w + "" == w && w[..|w|] == w;
  }
}
