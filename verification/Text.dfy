/** String helpers with the meaning of the Go functions the program calls. */
module Text {

  datatype Option<+T> = None | Some(value: T)

  /** unicode.IsSpace. */
  predicate IsSpace(c: char) {
    || '\t' <= c <= '\r'
    || c == ' '
    || c == '\U{0085}'
    || c == '\U{00A0}'
    || c == '\U{1680}'
    || '\U{2000}' <= c <= '\U{200A}'
    || c == '\U{2028}' || c == '\U{2029}' || c == '\U{202F}' || c == '\U{205F}'
    || c == '\U{3000}'
  }

  predicate IsDigit(c: char) {
    '0' <= c <= '9'
  }

  /** strings.TrimLeft. */
  function TrimLeft(s: string, cut: set<char>): (r: string)
    ensures |r| <= |s|
    ensures r != [] ==> r[0] !in cut
  {
    if s != [] && s[0] in cut then TrimLeft(s[1..], cut) else s
  }

  /** strings.TrimRight. */
  function TrimRight(s: string, cut: set<char>): (r: string)
    ensures r <= s
    ensures r != [] ==> r[|r| - 1] !in cut
  {
    if s != [] && s[|s| - 1] in cut then TrimRight(s[..|s| - 1], cut) else s
  }

  function TrimSpaceLeft(s: string): string {
    if s != [] && IsSpace(s[0]) then TrimSpaceLeft(s[1..]) else s
  }

  function TrimSpaceRight(s: string): string {
    if s != [] && IsSpace(s[|s| - 1]) then TrimSpaceRight(s[..|s| - 1]) else s
  }

  /** strings.TrimSpace. */
  function TrimSpace(s: string): string {
    TrimSpaceRight(TrimSpaceLeft(s))
  }

  /** strings.TrimSpace(s) == "". */
  predicate Blank(s: string) {
    TrimSpace(s) == ""
  }

  predicate Trimmed(s: string) {
    s == "" || (!IsSpace(s[0]) && !IsSpace(s[|s| - 1]))
  }

  /** strings.Trim(s, c) == "". */
  predicate Only(s: string, c: char) {
    forall i | 0 <= i < |s| :: s[i] == c
  }

  function Repeat(c: char, n: nat): (s: string)
    ensures |s| == n && Only(s, c)
  {
    if n == 0 then "" else [c] + Repeat(c, n - 1)
  }

  /** strings.ReplaceAll(s, " ", ""). */
  function WithoutSpaces(s: string): string {
    if s == [] then "" else (if s[0] == ' ' then "" else [s[0]]) + WithoutSpaces(s[1..])
  }

  predicate HasPrefix(s: string, prefix: string) {
    prefix <= s
  }

  /** strings.TrimPrefix with a one-character prefix. */
  function TrimPrefixChar(s: string, c: char): string {
    if s != [] && s[0] == c then s[1..] else s
  }

  function TrimSuffixChar(s: string, c: char): string {
    if s != [] && s[|s| - 1] == c then s[..|s| - 1] else s
  }

  /** How many leading characters of s satisfy "is c". */
  function CountPrefix(s: string, c: char): (n: nat)
    ensures n <= |s| && Only(s[..n], c)
    ensures n < |s| ==> s[n] != c
  {
    if s != [] && s[0] == c then
      var n := 1 + CountPrefix(s[1..], c);
      assert forall i | 0 < i < n :: s[i] == s[1..][i - 1];
      n
    else 0
  }

  function CountDigits(s: string): (n: nat)
    ensures n <= |s|
    ensures forall i | 0 <= i < n :: IsDigit(s[i])
    ensures n < |s| ==> !IsDigit(s[n])
  {
    if s != [] && IsDigit(s[0]) then
      var n := 1 + CountDigits(s[1..]);
      assert forall i | 0 < i < n :: s[i] == s[1..][i - 1];
      n
    else 0
  }

  /** strings.Join. */
  function Join(lines: seq<string>, separator: string): string {
    if lines == [] then ""
    else if |lines| == 1 then lines[0]
    else lines[0] + separator + Join(lines[1..], separator)
  }

  /** strings.Split on one character: always at least one piece. */
  function Split(s: string, c: char): (pieces: seq<string>)
    ensures |pieces| > 0
  {
    if s == [] then [""]
    else
      var rest := Split(s[1..], c);
      if s[0] == c then [""] + rest else [[s[0]] + rest[0]] + rest[1..]
  }

  lemma {:induction false} SplitOne(s: string, c: char)
    requires c !in s
    ensures Split(s, c) == [s]
  {
    if s != [] {
      assert s[0] in s && forall d | d in s[1..] :: d in s;
      SplitOne(s[1..], c);
      assert [s[0]] + s[1..] == s;
    }
  }

  // ---- Decimal numbers ----

  function Digit(n: nat): (c: char)
    requires n < 10
    ensures IsDigit(c)
  {
    '0' + n as char
  }

  function DigitValue(c: char): nat
    requires IsDigit(c)
  {
    c as int - '0' as int
  }

  /** strconv.Itoa on a number that is not negative. */
  function Itoa(n: nat): (s: string)
    ensures |s| > 0
    ensures forall i | 0 <= i < |s| :: IsDigit(s[i])
  {
    if n < 10 then [Digit(n)] else Itoa(n / 10) + [Digit(n % 10)]
  }

  /** The value strconv.Atoi reads from a run of digits. */
  function Atoi(s: string): nat
    requires forall i | 0 <= i < |s| :: IsDigit(s[i])
  {
    if s == [] then 0 else 10 * Atoi(s[..|s| - 1]) + DigitValue(s[|s| - 1])
  }

  function Pow10(k: nat): nat {
    if k == 0 then 1 else 10 * Pow10(k - 1)
  }

  lemma {:induction false} AtoiItoa(n: nat)
    ensures Atoi(Itoa(n)) == n
  {
    if n < 10 {
      assert [Digit(n)][..0] == [];
    } else {
      AtoiItoa(n / 10);
      var s := Itoa(n);
      assert s[..|s| - 1] == Itoa(n / 10);
    }
  }

  lemma ItoaInjective(m: nat, n: nat)
    requires Itoa(m) == Itoa(n)
    ensures m == n
  {
    AtoiItoa(m);
    AtoiItoa(n);
  }

  lemma {:induction false} ItoaLength(n: nat, k: nat)
    requires 0 < k && n < Pow10(k)
    ensures |Itoa(n)| <= k
  {
    assert Pow10(1) == 10 * Pow10(0);
    if n >= 10 {
      ItoaLength(n / 10, k - 1);
    }
  }

  // ---- Facts about trimming ----

  lemma TrimLeftNothing(s: string, cut: set<char>)
    requires s == [] || s[0] !in cut
    ensures TrimLeft(s, cut) == s
  {
  }

  lemma {:induction false} TrimSpaceRightKeepsHead(s: string)
    requires s != [] && !IsSpace(s[0])
    ensures TrimSpaceRight(s) != [] && TrimSpaceRight(s)[0] == s[0]
  {
    if IsSpace(s[|s| - 1]) {
      TrimSpaceRightKeepsHead(s[..|s| - 1]);
    }
  }

  lemma TrimSpaceOfTrimmed(s: string)
    requires Trimmed(s)
    ensures TrimSpace(s) == s
  {
  }

  lemma {:induction false} TrimSpaceRightDrops(s: string, pad: string)
    requires forall i | 0 <= i < |pad| :: IsSpace(pad[i])
    requires s == [] || !IsSpace(s[|s| - 1])
    ensures TrimSpaceRight(s + pad) == s
  {
    if pad == [] {
      assert s + pad == s;
    } else {
      assert (s + pad)[..|s + pad| - 1] == s + pad[..|pad| - 1];
      TrimSpaceRightDrops(s, pad[..|pad| - 1]);
    }
  }

  lemma {:induction false} TrimSpaceLeftDrops(pad: string, s: string)
    requires forall i | 0 <= i < |pad| :: IsSpace(pad[i])
    requires s == [] || !IsSpace(s[0])
    ensures TrimSpaceLeft(pad + s) == s
  {
    if pad == [] {
      assert pad + s == s;
    } else {
      assert (pad + s)[1..] == pad[1..] + s;
      TrimSpaceLeftDrops(pad[1..], s);
    }
  }

  /** Padding a trimmed string with white space is undone by TrimSpace. */
  lemma TrimSpacePadded(left: string, s: string, right: string)
    requires Trimmed(s)
    requires forall i | 0 <= i < |left| :: IsSpace(left[i])
    requires forall i | 0 <= i < |right| :: IsSpace(right[i])
    ensures TrimSpace(left + s + right) == s
  {
    assert left + s + right == left + (s + right);
    if s == [] {
      assert left + s + right == (left + right) + [];
      TrimSpaceLeftDrops(left + right, []);
    } else {
      TrimSpaceLeftDrops(left, s + right);
      TrimSpaceRightDrops(s, right);
    }
  }

  /** A line that starts with a visible character is not blank, and trimming
      keeps that character first. */
  lemma VisibleHead(s: string)
    requires s != [] && !IsSpace(s[0])
    ensures !Blank(s) && TrimSpace(s)[0] == s[0]
  {
    TrimSpaceRightKeepsHead(s);
  }

  // ---- Sizes of sets ----

  lemma Smaller<T>(a: set<T>, b: set<T>, x: T)
    requires a <= b && x in b && x !in a
    ensures |a| < |b|
  {
    SubsetSize(a, b - {x});
  }

  lemma {:induction false} SubsetSize<T>(a: set<T>, b: set<T>)
    requires a <= b
    ensures |a| <= |b|
  {
    if a != {} {
      var x :| x in a;
      SubsetSize(a - {x}, b - {x});
    }
  }
}
