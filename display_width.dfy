/** Width of text in the status bar, measured as the number of bytes each
    character takes in the system's ANSI code page (`Encoding.Default`), and
    `StrCut`, which keeps the longest prefix of a string that stays strictly
    under a width budget. */
module DisplayWidth {

  /** An ANSI code page, given by the characters it encodes in two bytes;
      every other character takes one byte. No ASCII character is double-byte
      (every Windows ANSI code page extends ASCII). */
  type CodePage = doubleByte: set<char> | forall c :: c in doubleByte ==> 128 <= c as int witness {}

  /** `Encoding.Default.GetBytes(c.ToString()).Length`, as the source tests it:
      more than one byte counts 2, otherwise 1. */
  function ByteCount(cp: CodePage, c: char): (n: nat)
    ensures n == 1 || n == 2
    ensures c as int < 128 ==> n == 1
  {
    if c in cp then 2 else 1
  }

  /** The byte count of a whole string, `Encoding.Default.GetBytes(s).Length`. */
  function Width(cp: CodePage, s: string): (n: nat)
    ensures |s| <= n <= 2 * |s|
  {
    if s == [] then 0 else ByteCount(cp, s[0]) + Width(cp, s[1..])
  }

  lemma {:induction false} WidthConcat(cp: CodePage, a: string, b: string)
    ensures Width(cp, a + b) == Width(cp, a) + Width(cp, b)
  {
    if a != [] {
      assert (a + b)[1..] == a[1..] + b;
      WidthConcat(cp, a[1..], b);
    } else {
      assert a + b == b;
    }
  }

  /** The width of a suffix is its first character's width plus the rest. */
  lemma WidthFrom(cp: CodePage, s: string, i: nat)
    requires i < |s|
    ensures Width(cp, s[i..]) == ByteCount(cp, s[i]) + Width(cp, s[i + 1..])
  {
    assert s[i..][1..] == s[i + 1..];
  }

  /** The prefix `StrCut` keeps: characters are taken while the running width
      stays strictly below `limit`. */
  function Cut(cp: CodePage, s: string, limit: int): string
  {
    if s == [] || ByteCount(cp, s[0]) >= limit then [] else [s[0]] + Cut(cp, s[1..], limit - ByteCount(cp, s[0]))
  }

  /** What `Cut` keeps: a prefix of `s` narrower than the budget (empty when
      there is no budget) that cannot grow by one more character without
      reaching the budget. */
  lemma {:induction false} CutSpec(cp: CodePage, s: string, limit: int)
    ensures Cut(cp, s, limit) <= s
    ensures limit > 0 ==> Width(cp, Cut(cp, s, limit)) < limit
    ensures limit <= 0 ==> Cut(cp, s, limit) == []
    ensures |Cut(cp, s, limit)| < |s| ==> Width(cp, s[..|Cut(cp, s, limit)| + 1]) >= limit
  {
    if s != [] && ByteCount(cp, s[0]) < limit {
      var budget := limit - ByteCount(cp, s[0]);
      var rest := Cut(cp, s[1..], budget);
      CutSpec(cp, s[1..], budget);
      assert Cut(cp, s, limit) == [s[0]] + rest;
      assert ([s[0]] + rest)[1..] == rest;
      if |rest| < |s[1..]| {
        var longer := s[..|rest| + 2];
        assert longer[0] == s[0] && longer[1..] == s[1..][..|rest| + 1];
        assert Width(cp, longer) == ByteCount(cp, s[0]) + Width(cp, s[1..][..|rest| + 1]);
      }
    } else if s != [] {
      assert s[..1][1..] == [];
    }
  }

  /** `Cut` is THE longest prefix under the budget: any prefix that stays under
      `limit` and cannot be extended by one character without reaching it is
      the one `Cut` returns. */
  lemma {:induction false} CutUnique(cp: CodePage, s: string, limit: int, p: string)
    requires p <= s
    requires limit > 0 ==> Width(cp, p) < limit
    requires limit <= 0 ==> p == []
    requires |p| < |s| ==> Width(cp, s[..|p| + 1]) >= limit
    ensures p == Cut(cp, s, limit)
  {
    if s != [] && ByteCount(cp, s[0]) < limit {
      if p != [] {
        var budget := limit - ByteCount(cp, s[0]);
        assert p[1..] <= s[1..];
        assert |p[1..]| < |s[1..]| ==> s[..|p| + 1][1..] == s[1..][..|p[1..]| + 1];
        CutUnique(cp, s[1..], budget, p[1..]);
        assert p == [s[0]] + p[1..];
      }
    }
  }

  /** One step of `Cut`: the first character is kept exactly when its width
      is below the budget. */
  lemma CutStep(cp: CodePage, s: string, limit: int)
    requires s != []
    ensures Cut(cp, s, limit) ==
      if ByteCount(cp, s[0]) >= limit then [] else [s[0]] + Cut(cp, s[1..], limit - ByteCount(cp, s[0]))
  {
  }

  /** `StrCut(str, length)`: accumulates the width character by character and
      stops before the character that brings it to `length` or more. */
  method StrCut(cp: CodePage, str: string, length: int) returns (r: string)
    ensures r == Cut(cp, str, length)
  {
    var len := 0;
    var sb := "";
    var i := 0;
    while i < |str|
      invariant 0 <= i <= |str|
      invariant Cut(cp, str, length) == sb + Cut(cp, str[i..], length - len)
    {
      CutStep(cp, str[i..], length - len);
      assert str[i..][1..] == str[i + 1..];
      len := len + ByteCount(cp, str[i]);
      if len >= length {
        break;
      }
      sb := sb + [str[i]];
      i := i + 1;
    }
    assert i == |str| ==> str[i..] == [];
    r := sb;
  }
}
