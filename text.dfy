/** The parts of Go's `strings`, `unicode`, `strconv` and `fmt` packages that the
    parsers rely on, over strings of Unicode scalar values.  Go works on UTF-8
    bytes; every byte the core compares against is ASCII, and no UTF-8
    continuation byte is ASCII, so a character-level reading is equivalent. */
module Text {

  // ---------------------------------------------------------------------------
  // Character classes

  /** unicode.IsSpace: what strings.TrimSpace and strings.Fields strip or split on. */
  predicate IsSpace(c: char) {
    || ('\t' <= c <= '\r')          // \t \n \v \f \r
    || c == ' ' || c == '\U{85}' || c == '\U{A0}' || c == '\U{1680}'
    || ('\U{2000}' <= c <= '\U{200A}')
    || c == '\U{2028}' || c == '\U{2029}' || c == '\U{202F}' || c == '\U{205F}' || c == '\U{3000}'
  }

  predicate IsDigit(c: char) { '0' <= c <= '9' }

  predicate IsUpperAscii(c: char) { 'A' <= c <= 'Z' }

  function ToLowerAscii(c: char): (r: char)
    requires IsUpperAscii(c)
    ensures 'a' <= r <= 'z' && r as int == c as int + 32
  {
    (c as int + 32) as char
  }

  /** `strings.ToUpper(c) == u` for an ASCII target `u`: besides `u` itself and
      its lower-case letter, Unicode upper-cases dotless i to 'I' and long s to 'S'. */
  predicate UpperIs(c: char, u: char) {
    || c == u
    || (IsUpperAscii(u) && c == ToLowerAscii(u))
    || (u == 'I' && c == '\U{131}')
    || (u == 'S' && c == '\U{17F}')
  }

  /** `strings.ToUpper(s[i..i+|w|]) == w` for an upper-case ASCII word `w`. */
  predicate UpperWordAt(s: string, i: nat, w: string) {
    i + |w| <= |s| && forall m :: 0 <= m < |w| ==> UpperIs(s[i + m], w[m])
  }

  /** strings.EqualFold(s, w) for an upper-case ASCII word `w` whose letters
      have no other Unicode case-fold partner (true of "END"). */
  predicate EqualFoldAscii(s: string, w: string) {
    |s| == |w| && forall m :: 0 <= m < |w| ==> (s[m] == w[m] || (IsUpperAscii(w[m]) && s[m] == ToLowerAscii(w[m])))
  }

  /** strings.Contains(strings.ToUpper(s), w) for an upper-case ASCII `w`. */
  predicate UpperContains(s: string, w: string) {
    exists i :: 0 <= i <= |s| && UpperWordAt(s, i, w)
  }

  /** Decides UpperContains by scanning from position `i`. */
  function UpperFind(s: string, w: string, i: nat): (r: bool)
    requires i <= |s|
    ensures r <==> exists k :: i <= k <= |s| && UpperWordAt(s, k, w)
    decreases |s| - i
  {
    if UpperWordAt(s, i, w) then true
    else if i == |s| then false
    else UpperFind(s, w, i + 1)
  }

  /** strings.Contains(s, w). */
  predicate Contains(s: string, w: string) {
    exists i :: 0 <= i <= |s| && WordAt(s, i, w)
  }

  /** `w` occurs in `s` at position `i`. */
  predicate WordAt(s: string, i: nat, w: string) {
    i + |w| <= |s| && s[i..i + |w|] == w
  }

  function Find(s: string, w: string, i: nat): (r: bool)
    requires i <= |s|
    ensures r <==> exists k :: i <= k <= |s| && WordAt(s, k, w)
    decreases |s| - i
  {
    if WordAt(s, i, w) then true
    else if i == |s| then false
    else Find(s, w, i + 1)
  }

  /** strings.HasPrefix. */
  predicate HasPrefix(s: string, p: string) {
    |p| <= |s| && s[..|p|] == p
  }

  lemma HasPrefixChar(s: string, c: char)
    ensures HasPrefix(s, [c]) <==> |s| > 0 && s[0] == c
  {
    if |s| > 0 && s[0] == c {
      forall k | 0 <= k < 1 ensures s[..1][k] == [c][k] {
      }
    }
  }

  /** strings.IndexByte(s, c), which is also strings.Index(s, w) for a
      one-character `w`: the first position of `c` in `s`, or -1. */
  function IndexByte(s: string, c: char): (r: int)
    ensures -1 <= r < |s|
    ensures r >= 0 ==> s[r] == c && forall j :: 0 <= j < r ==> s[j] != c
    ensures r == -1 ==> forall j :: 0 <= j < |s| ==> s[j] != c
  {
    IndexFrom(s, c, 0)
  }

  function IndexFrom(s: string, c: char, i: nat): (r: int)
    requires i <= |s|
    ensures r == -1 || i <= r < |s|
    ensures r >= 0 ==> s[r] == c && forall j :: i <= j < r ==> s[j] != c
    ensures r == -1 ==> forall j :: i <= j < |s| ==> s[j] != c
    decreases |s| - i
  {
    if i == |s| then -1 else if s[i] == c then i else IndexFrom(s, c, i + 1)
  }

  // ---------------------------------------------------------------------------
  // strings.TrimSpace

  predicate AllSpace(s: string) {
    forall k :: 0 <= k < |s| ==> IsSpace(s[k])
  }

  /** A string with no white space at either end, as strings.TrimSpace returns. */
  predicate Trimmed(s: string) {
    s == [] || (!IsSpace(s[0]) && !IsSpace(s[|s| - 1]))
  }

  /** Number of leading white-space characters. */
  function LeadingSpace(s: string): (n: nat)
    ensures n <= |s| && AllSpace(s[..n]) && (n == |s| || !IsSpace(s[n]))
  {
    if s != [] && IsSpace(s[0]) then
      var n := 1 + LeadingSpace(s[1..]);
      assert s[..n] == [s[0]] + s[1..][..n - 1];
      n
    else 0
  }

  /** Length of `s` without its trailing white space. */
  function TrailingStart(s: string): (n: nat)
    ensures n <= |s| && AllSpace(s[n..]) && (n == 0 || !IsSpace(s[n - 1]))
  {
    if s != [] && IsSpace(s[|s| - 1]) then
      var n := TrailingStart(s[..|s| - 1]);
      assert s[n..] == s[..|s| - 1][n..] + [s[|s| - 1]];
      n
    else |s|
  }

  /** strings.TrimSpace: `s` without leading and trailing white space. */
  function TrimSpace(s: string): (r: string)
    ensures Trimmed(r) && LeadingSpace(s) + |r| <= |s|
    ensures r == s[LeadingSpace(s)..LeadingSpace(s) + |r|]
    ensures AllSpace(s[..LeadingSpace(s)]) && AllSpace(s[LeadingSpace(s) + |r|..])
  {
    var t := s[LeadingSpace(s)..];
    var r := t[..TrailingStart(t)];
    assert s[LeadingSpace(s) + |r|..] == t[TrailingStart(t)..];
    assert r != [] ==> r[0] == t[0];
    r
  }

  lemma TrimmedFixed(s: string)
    requires Trimmed(s)
    ensures TrimSpace(s) == s
  {
    if s != [] {
      assert LeadingSpace(s) == 0;
      assert TrailingStart(s) == |s|;
    }
  }

  /** TrimSpace keeps everything from the first non-space character up to
      any later non-space one. */
  lemma TrimSpaceKeeps(s: string, n: nat, p: nat)
    requires n <= p < |s| && AllSpace(s[..n]) && !IsSpace(s[n]) && !IsSpace(s[p])
    ensures LeadingSpace(s) == n
    ensures p - n < |TrimSpace(s)| && TrimSpace(s)[..p - n + 1] == s[n..p + 1]
  {
    var lead := LeadingSpace(s);
    assert lead == n by {
      assert forall k :: 0 <= k < n ==> s[..n][k] == s[k];
      assert forall k :: 0 <= k < lead ==> s[..lead][k] == s[k];
    }
    var r := TrimSpace(s);
    assert p < n + |r| by {
      assert forall k :: n + |r| <= k < |s| ==> s[n + |r|..][k - n - |r|] == s[k];
    }
  }

  lemma AllSpaceTrimsToEmpty(s: string)
    requires AllSpace(s)
    ensures TrimSpace(s) == []
  {
  }

  // ---------------------------------------------------------------------------
  // Decimal numbers: strconv.Atoi on digit strings and fmt's %d

  predicate AllDigits(s: string) {
    forall k :: 0 <= k < |s| ==> IsDigit(s[k])
  }

  /** The value of a non-empty run of ASCII digits, leading zeros allowed. */
  function DigitsValue(s: string): nat
    requires AllDigits(s)
  {
    if s == [] then 0 else DigitsValue(s[..|s| - 1]) * 10 + (s[|s| - 1] as int - '0' as int)
  }

  function DigitChar(d: nat): (c: char)
    requires d < 10
    ensures IsDigit(c) && c as int - '0' as int == d
  {
    ('0' as int + d) as char
  }

  /** fmt.Sprintf("%d", n) for a non-negative n: the shortest decimal spelling. */
  function NatToString(n: nat): (r: string)
    ensures |r| > 0 && AllDigits(r)
    ensures r[0] == '0' ==> r == "0"
    ensures DigitsValue(r) == n
  {
    if n < 10 then [DigitChar(n)]
    else
      var p := NatToString(n / 10);
      var r := p + [DigitChar(n % 10)];
      assert r[..|r| - 1] == p;
      r
  }

  /** fmt.Sprintf("%d", i) for any int: a minus sign, then the digits. */
  function IntToString(i: int): (r: string)
    ensures i >= 0 ==> r == NatToString(i)
    ensures i < 0 ==> r == "-" + NatToString(-i)
  {
    if i < 0 then "-" + NatToString(-i) else NatToString(i)
  }

  // ---------------------------------------------------------------------------
  // strings.Join

  function Join(parts: seq<string>, sep: string): (r: string)
    ensures parts == [] ==> r == ""
    ensures |parts| == 1 ==> r == parts[0]
  {
    if parts == [] then ""
    else if |parts| == 1 then parts[0]
    else parts[0] + sep + Join(parts[1..], sep)
  }
}
