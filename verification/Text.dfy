/**
 Text primitives of the Go standard library that the backend relies on: trimming, lower-casing,
 byte-wise comparison and decimal formatting.
 */
module Text {

  // unicode.IsSpace
  predicate IsSpace(c: char) {
    c == ' ' || '\t' <= c <= '\r' || c == '\U{0085}' || c == '\U{00A0}' || c == '\U{1680}'
    || '\U{2000}' <= c <= '\U{200A}' || c == '\U{2028}' || c == '\U{2029}' || c == '\U{202F}'
    || c == '\U{205F}' || c == '\U{3000}'
  }

  // The first position from i on that is no space
  function SkipSpaces(s: string, i: nat): (j: nat)
    requires i <= |s|
    ensures i <= j <= |s|
    ensures j < |s| ==> !IsSpace(s[j])
    decreases |s| - i
  {
    if i < |s| && IsSpace(s[i]) then SkipSpaces(s, i + 1) else i
  }

  // The end of s[i..j] without the spaces at its end
  function DropSpaces(s: string, i: nat, j: nat): (k: nat)
    requires i <= j <= |s|
    ensures i <= k <= j
    ensures i < k ==> !IsSpace(s[k - 1])
  {
    if i < j && IsSpace(s[j - 1]) then DropSpaces(s, i, j - 1) else j
  }

  // strings.TrimSpace
  function Trim(s: string): (t: string)
    ensures Unpadded(t)
  {
    var i := SkipSpaces(s, 0);
    s[i..DropSpaces(s, i, |s|)]
  }

  // Trimming takes away spaces at either end, and nothing else.
  lemma TrimKeepsTheMiddle(s: string)
    ensures exists i: nat, j: nat ::
              && i <= j <= |s| && Trim(s) == s[i..j]
              && (forall k :: 0 <= k < i ==> IsSpace(s[k])) && (forall k :: j <= k < |s| ==> IsSpace(s[k]))
  {
    var i := SkipSpaces(s, 0);
    var j := DropSpaces(s, i, |s|);
    SkippedAreSpaces(s, 0);
    DroppedAreSpaces(s, i, |s|);
    hide IsSpace;
    assert Trim(s) == s[i..j];
  }

  lemma {:induction false} SkippedAreSpaces(s: string, i: nat)
    requires i <= |s|
    ensures forall k :: i <= k < SkipSpaces(s, i) ==> IsSpace(s[k])
    decreases |s| - i
  {
    hide IsSpace;
    if i < |s| && IsSpace(s[i]) {
      SkippedAreSpaces(s, i + 1);
    }
  }

  lemma {:induction false} DroppedAreSpaces(s: string, i: nat, j: nat)
    requires i <= j <= |s|
    ensures forall k :: DropSpaces(s, i, j) <= k < j ==> IsSpace(s[k])
  {
    hide IsSpace;
    if i < j && IsSpace(s[j - 1]) {
      DroppedAreSpaces(s, i, j - 1);
    }
  }

  predicate Unpadded(s: string) {
    s == "" || (!IsSpace(s[0]) && !IsSpace(s[|s| - 1]))
  }

  predicate Blank(s: string) {
    Trim(s) == ""
  }

  lemma TrimFixesExactlyUnpadded(s: string)
    ensures Trim(s) == s <==> Unpadded(s)
  {
  }

  // Lower case of the Latin capitals (ASCII and Latin-1) and of the Cyrillic ones, the Kazakh letters
  // among them. Capitals of other scripts are left alone, which unicode.ToLower does not do.
  function LowerChar(c: char): char {
    if 'A' <= c <= 'Z' || ('\U{00C0}' <= c <= '\U{00DE}' && c != '\U{00D7}') then ((c as int) + 32) as char
    else if '\U{0410}' <= c <= '\U{042F}' then ((c as int) + 32) as char
    else if '\U{0400}' <= c <= '\U{040F}' then ((c as int) + 80) as char
    else if PairedCyrillic(c) && (c as int) % 2 == 0 then ((c as int) + 1) as char
    else c
  }

  // Blocks in which each even code point is the capital of the next one
  predicate PairedCyrillic(c: char) {
    '\U{0460}' <= c <= '\U{0481}' || '\U{048A}' <= c <= '\U{04BF}' || '\U{04D0}' <= c <= '\U{052F}'
  }

  // strings.ToLower
  function Lower(s: string): (t: string)
    ensures |t| == |s|
    ensures forall i :: 0 <= i < |s| ==> t[i] == LowerChar(s[i])
  {
    seq(|s|, i requires 0 <= i < |s| => LowerChar(s[i]))
  }

  lemma LowerCharIsIdempotent(c: char)
    ensures LowerChar(LowerChar(c)) == LowerChar(c)
    ensures IsSpace(LowerChar(c)) <==> IsSpace(c)
  {
  }

  // No Latin or Russian capital survives, and only capitals change, to the small letter next in their block.
  lemma LowerLeavesNoCapital(c: char)
    ensures
      var lower := LowerChar(c) as int;
      && !('A' as int <= lower <= 'Z' as int) && !(0x400 <= lower <= 0x42F)
      && (('a' <= c <= 'z' || '0' <= c <= '9' || '\U{0430}' <= c <= '\U{045F}') ==> lower == c as int)
      && ('A' <= c <= 'Z' ==> lower - 'a' as int == c as int - 'A' as int)
      && ('\U{0410}' <= c <= '\U{042F}' ==> lower - 0x430 == c as int - 0x410)
      && ('\U{0400}' <= c <= '\U{040F}' ==> lower - 0x450 == c as int - 0x400)
  {
  }

  lemma LowerIsIdempotent(s: string)
    ensures Lower(Lower(s)) == Lower(s)
    ensures Unpadded(s) ==> Unpadded(Lower(s))
  {
    hide LowerChar, IsSpace;
    forall i | 0 <= i < |s|
      ensures LowerChar(LowerChar(s[i])) == LowerChar(s[i]) && (IsSpace(LowerChar(s[i])) <==> IsSpace(s[i]))
    {
      LowerCharIsIdempotent(s[i]);
    }
  }

  // strings.ToLower(strings.TrimSpace(s)), the backend's usual normal form
  function Fold(s: string): string {
    Lower(Trim(s))
  }

  lemma FoldIsIdempotent(s: string)
    ensures Fold(Fold(s)) == Fold(s)
    ensures Trim(Fold(s)) == Fold(s)
  {
    LowerIsIdempotent(Trim(s));
    TrimFixesExactlyUnpadded(Fold(s));
  }

  // The order Go's < puts on strings.
  predicate Less(a: string, b: string) {
    b != "" && (a == "" || a[0] < b[0] || (a[0] == b[0] && Less(a[1..], b[1..])))
  }

  // a comes before b exactly if it is a proper prefix of b or has the smaller character where they
  // first differ.
  lemma {:induction false} LessIsLexicographic(a: string, b: string)
    ensures Less(a, b) <==> exists k: nat :: k <= |a| && k < |b| && a[..k] == b[..k] && (k == |a| || a[k] < b[k])
  {
    if a != "" && b != "" {
      LessIsLexicographic(a[1..], b[1..]);
      hide Less;
      if a[0] == b[0] {
        if k: nat :| k <= |a| && k < |b| && a[..k] == b[..k] && (k == |a| || a[k] < b[k]) {
          assert k > 0;
          assert a[1..][..k - 1] == a[..k][1..] && b[1..][..k - 1] == b[..k][1..];
          assert k - 1 <= |a[1..]| && k - 1 < |b[1..]| && (k - 1 == |a[1..]| || a[1..][k - 1] < b[1..][k - 1]);
        }
        if k: nat :|
          k <= |a[1..]| && k < |b[1..]| && a[1..][..k] == b[1..][..k] && (k == |a[1..]| || a[1..][k] < b[1..][k]) {
          assert a[..k + 1] == [a[0]] + a[1..][..k] && b[..k + 1] == [b[0]] + b[1..][..k];
        }
      } else if a[0] < b[0] {
        assert a[..0] == b[..0];
      }
    } else if a == "" && b != "" {
      assert a[..0] == b[..0];
    }
  }

  lemma {:induction false} LessIsStrictTotalOrder(a: string, b: string, c: string)
    ensures !(Less(a, b) && Less(b, a))
    ensures Less(a, b) || Less(b, a) || a == b
    ensures !Less(a, a)
    ensures Less(a, b) && Less(b, c) ==> Less(a, c)
  {
    if a != "" {
      LessIsStrictTotalOrder(a[1..], if b == "" then "" else b[1..], if c == "" then "" else c[1..]);
      assert a == [a[0]] + a[1..];
      if b != "" {
        assert b == [b[0]] + b[1..];
      }
    }
  }

  // Decimal rendering of an index (fmt's %d)
  function Decimal(n: nat): (s: string)
    ensures s != "" && forall c :: c in s ==> '0' <= c <= '9'
  {
    var digit := (n % 10 + '0' as int) as char;
    if n < 10 then [digit] else Decimal(n / 10) + [digit]
  }

  lemma {:induction false} DecimalIsInjective(m: nat, n: nat)
    ensures Decimal(m) == Decimal(n) ==> m == n
  {
    if m >= 10 && n >= 10 && Decimal(m) == Decimal(n) {
      assert Decimal(m)[..|Decimal(m)| - 1] == Decimal(m / 10);
      assert Decimal(n)[..|Decimal(n)| - 1] == Decimal(n / 10);
      DecimalIsInjective(m / 10, n / 10);
      assert Decimal(m)[|Decimal(m)| - 1] == (m % 10 + '0' as int) as char;
      assert Decimal(n)[|Decimal(n)| - 1] == (n % 10 + '0' as int) as char;
    }
  }

  function ReadDecimal(s: string): int {
    if s == "" then 0 else 10 * ReadDecimal(s[..|s| - 1]) + (s[|s| - 1] as int - '0' as int)
  }

  lemma {:induction false} DecimalReadsBack(n: nat)
    ensures ReadDecimal(Decimal(n)) == n
  {
    if n >= 10 {
      DecimalReadsBack(n / 10);
      assert Decimal(n)[..|Decimal(n)| - 1] == Decimal(n / 10);
    }
  }

  // ---------- Delimited text ----------

  predicate Without(mark: char, s: string) {
    forall i :: 0 <= i < |s| ==> s[i] != mark
  }

  // What stands before the first mark
  function Before(mark: char, s: string): string {
    if s == "" || s[0] == mark then "" else [s[0]] + Before(mark, s[1..])
  }

  lemma {:induction false} MarkDelimits(mark: char, a: string, tail: string)
    requires Without(mark, a)
    ensures Before(mark, a) == a && Before(mark, (a + [mark]) + tail) == a
  {
    if a != "" {
      assert ((a + [mark]) + tail)[1..] == (a[1..] + [mark]) + tail;
      MarkDelimits(mark, a[1..], tail);
    }
  }

  // Text with a mark after its first part is taken apart in one way only.
  lemma DelimitedIsInjective(mark: char, a: string, s: string, b: string, t: string)
    requires Without(mark, a) && Without(mark, b) && (a + [mark]) + s == (b + [mark]) + t
    ensures a == b && s == t
  {
    MarkDelimits(mark, a, s);
    MarkDelimits(mark, b, t);
    hide Before, Without;
    assert ((a + [mark]) + s)[|a| + 1..] == s && ((b + [mark]) + t)[|b| + 1..] == t;
  }

  lemma DecimalIsPlain(n: nat, mark: char)
    requires !('0' <= mark <= '9')
    ensures Without(mark, Decimal(n))
  {
    assert forall i :: 0 <= i < |Decimal(n)| ==> Decimal(n)[i] in Decimal(n);
    hide Decimal;
  }
}
