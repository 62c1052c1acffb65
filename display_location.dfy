/** The status-bar text for the current folder (`GenerateDisplayLocation`): a
    location wider than 47 bytes is shortened to a head, an ellipsis and, when
    there is room, the last path segment. */
module DisplayLocation {
  import opened DisplayWidth

  /** The widest location shown unchanged. */
  const MaxWidth := 47

  const Ellipsis := "..."

  /** The last `\` strictly below index `j`, or 0 when there is none. */
  function LastSeparatorBelow(s: string, j: nat): (t: nat)
    requires j <= |s|
    ensures t <= j && (j > 0 ==> t < j)
    ensures t > 0 ==> s[t] == '\\'
    ensures forall i :: t < i < j ==> s[i] != '\\'
    decreases j
  {
    if j == 0 then 0
    else if s[j - 1] == '\\' then j - 1
    else LastSeparatorBelow(s, j - 1)
  }

  /** Where the tail starts: at the last `\` that is not the final character,
      or at 0 when there is none. */
  function TailStart(s: string): (t: nat)
    ensures t <= |s|
    ensures t == 0 || (t < |s| - 1 && s[t] == '\\')
    ensures forall i :: t < i < |s| - 1 ==> s[i] != '\\'
  {
    if |s| == 0 then 0 else LastSeparatorBelow(s, |s| - 1)
  }

  /** The conditions of `TailStart`'s contract determine it. */
  lemma TailStartIs(s: string, t: nat)
    requires t <= |s|
    requires t == 0 || (t < |s| - 1 && s[t] == '\\')
    requires forall i :: t < i < |s| - 1 ==> s[i] != '\\'
    ensures t == TailStart(s)
  {
  }

  /** The last path segment with the separator before it. */
  function Tail(s: string): string {
    s[TailStart(s)..]
  }

  /** The tail as rebuilt from the zero-filled `tailChars` buffer: the
      rebuilding loop skips every `'\0'`. */
  function DropNul(s: string): (r: string)
    ensures |r| <= |s|
  {
    if s == [] then []
    else
      var init := DropNul(s[..|s| - 1]);
      assert s == s[..|s| - 1] + [s[|s| - 1]];
      init + (if s[|s| - 1] == '\0' then [] else [s[|s| - 1]])
  }

  lemma DropNulSnoc(s: string, c: char)
    ensures DropNul(s + [c]) == DropNul(s) + (if c == '\0' then [] else [c])
  {
    assert (s + [c])[..|s|] == s;
  }

  lemma {:induction false} DropNulWidth(cp: CodePage, s: string)
    ensures Width(cp, DropNul(s)) <= Width(cp, s)
  {
    if s != [] {
      var last := s[|s| - 1];
      var kept := if last == '\0' then [] else [last];
      assert s == s[..|s| - 1] + [last];
      DropNulWidth(cp, s[..|s| - 1]);
      WidthConcat(cp, DropNul(s[..|s| - 1]), kept);
      WidthConcat(cp, s[..|s| - 1], [last]);
    }
  }

  /** The text `GenerateDisplayLocation` shows for `location`. */
  function ShortForm(cp: CodePage, location: string): string {
    if Width(cp, location) <= MaxWidth then location
    else Shortened(cp, location, Width(cp, Tail(location)))
  }

  /** The shortened text of a too-wide location whose tail is `tailWidth`
      bytes wide: head, ellipsis and tail when at least 3 bytes remain for
      the head, otherwise a 44-byte head and the ellipsis. */
  function Shortened(cp: CodePage, location: string, tailWidth: int): string {
    var head := MaxWidth - |Ellipsis| - tailWidth;
    if head >= 3 then Cut(cp, location, head) + Ellipsis + DropNul(Tail(location))
    else Cut(cp, location, MaxWidth - |Ellipsis|) + Ellipsis
  }

  lemma EllipsisWidth(cp: CodePage)
    ensures Width(cp, Ellipsis) == 3
  {
    assert ByteCount(cp, '.') == 1;
    assert Width(cp, Ellipsis[2..]) == 1 by {
      assert Ellipsis[2..][1..] == [];
    }
    assert Ellipsis[1..][1..] == Ellipsis[2..];
  }

  /** Every displayed location fits in 47 bytes, and a shortened one is
      strictly narrower than that. */
  lemma ShortFormWidth(cp: CodePage, location: string)
    ensures Width(cp, ShortForm(cp, location)) <= MaxWidth
    ensures Width(cp, location) > MaxWidth ==> Width(cp, ShortForm(cp, location)) < MaxWidth
  {
    if Width(cp, location) > MaxWidth {
      var tail := Tail(location);
      var head := MaxWidth - |Ellipsis| - Width(cp, tail);
      assert ShortForm(cp, location) == Shortened(cp, location, Width(cp, tail));
      EllipsisWidth(cp);
      if head >= 3 {
        var h, t := Cut(cp, location, head), DropNul(tail);
        assert Width(cp, h) < head by {
          CutSpec(cp, location, head);
        }
        assert Width(cp, t) <= Width(cp, tail) by {
          DropNulWidth(cp, tail);
        }
        assert Width(cp, h + Ellipsis + t) == Width(cp, h) + Width(cp, Ellipsis) + Width(cp, t) by {
          WidthConcat(cp, h, Ellipsis);
          WidthConcat(cp, h + Ellipsis, t);
        }
      } else {
        var h := Cut(cp, location, MaxWidth - |Ellipsis|);
        assert Width(cp, h) < MaxWidth - |Ellipsis| by {
          CutSpec(cp, location, MaxWidth - |Ellipsis|);
        }
        WidthConcat(cp, h, Ellipsis);
      }
    }
  }

  /** A location is shown unchanged exactly when it fits in 47 bytes. */
  lemma ShortFormUnchangedIff(cp: CodePage, location: string)
    ensures ShortForm(cp, location) == location <==> Width(cp, location) <= MaxWidth
  {
    ShortFormWidth(cp, location);
  }

  /** Shortening a displayed location again changes nothing. */
  lemma ShortFormIdempotent(cp: CodePage, location: string)
    ensures ShortForm(cp, ShortForm(cp, location)) == ShortForm(cp, location)
  {
    ShortFormWidth(cp, location);
  }

  /** A text made of a proper prefix `h` of `location` narrower than
      `bound`, the ellipsis and `t` splits back into those three parts. */
  lemma ThreeParts(cp: CodePage, r: string, h: string, t: string, location: string, bound: int)
    requires r == h + Ellipsis + t
    requires h < location && Width(cp, h) < bound
    ensures var n := |r| - |t| - |Ellipsis|;
      0 <= n && r[..n] < location && r[n..n + |Ellipsis|] == Ellipsis && r[n + |Ellipsis|..] == t &&
      Width(cp, r[..n]) < bound
  {
    assert r[..|h|] == h;
    assert r[|h|..|h| + |Ellipsis|] == Ellipsis;
    assert r[|h| + |Ellipsis|..] == t;
  }

  /** The head kept in front of the ellipsis is a proper prefix of the
      location narrower than `limit`. */
  lemma HeadIsProperPrefix(cp: CodePage, location: string, limit: int)
    requires 0 < limit <= Width(cp, location)
    ensures Cut(cp, location, limit) < location
    ensures Width(cp, Cut(cp, location, limit)) < limit
  {
    CutSpec(cp, location, limit);
  }

  /** When the last segment leaves room for a head of at least 3 bytes, the
      shortened text is a proper prefix of the location, the ellipsis, and the
      last segment (NUL characters dropped). */
  lemma ShortFormKeepsLastSegment(cp: CodePage, location: string)
    requires Width(cp, location) > MaxWidth
    requires Width(cp, Tail(location)) <= MaxWidth - 2 * |Ellipsis|
    ensures var r, t := ShortForm(cp, location), DropNul(Tail(location));
      var n := |r| - |t| - |Ellipsis|;
      0 <= n && r[..n] < location && r[n..n + |Ellipsis|] == Ellipsis && r[n + |Ellipsis|..] == t &&
      Width(cp, r[..n]) < MaxWidth - |Ellipsis| - Width(cp, Tail(location))
  {
    var head := MaxWidth - |Ellipsis| - Width(cp, Tail(location));
    var h, t := Cut(cp, location, head), DropNul(Tail(location));
    assert h < location && Width(cp, h) < head by {
      HeadIsProperPrefix(cp, location, head);
    }
    assert ShortForm(cp, location) == h + Ellipsis + t by {
      assert ShortForm(cp, location) == Shortened(cp, location, Width(cp, Tail(location)));
    }
    ThreeParts(cp, ShortForm(cp, location), h, t, location, head);
  }

  /** When the last segment is too wide, the shortened text is a proper prefix
      of the location narrower than 44 bytes followed by the ellipsis. */
  lemma ShortFormTruncates(cp: CodePage, location: string)
    requires Width(cp, location) > MaxWidth
    requires Width(cp, Tail(location)) > MaxWidth - 2 * |Ellipsis|
    ensures var r := ShortForm(cp, location);
      var n := |r| - |Ellipsis|;
      0 <= n && r[..n] < location && r[n..] == Ellipsis &&
      Width(cp, r[..n]) < MaxWidth - |Ellipsis|
  {
    var h := Cut(cp, location, MaxWidth - |Ellipsis|);
    assert h < location && Width(cp, h) < MaxWidth - |Ellipsis| by {
      HeadIsProperPrefix(cp, location, MaxWidth - |Ellipsis|);
    }
    assert ShortForm(cp, location) == h + Ellipsis + [] by {
      assert ShortForm(cp, location) == Shortened(cp, location, Width(cp, Tail(location)));
    }
    ThreeParts(cp, ShortForm(cp, location), h, [], location, MaxWidth - |Ellipsis|);
  }

  /** `s` read from its last character to its first. */
  function Reversed(s: string): (r: string)
    ensures |r| == |s|
  {
    if s == [] then [] else Reversed(s[1..]) + [s[0]]
  }

  /** The zero fill of a fresh `char[]`. */
  function Nuls(m: nat): string {
    seq(m, _ => '\0')
  }

  lemma {:induction false} ReversedConcat(a: string, b: string)
    ensures Reversed(a + b) == Reversed(b) + Reversed(a)
  {
    if a == [] {
      assert a + b == b;
    } else {
      assert (a + b)[1..] == a[1..] + b;
      ReversedConcat(a[1..], b);
    }
  }

  lemma {:induction false} ReversedTwice(s: string)
    ensures Reversed(Reversed(s)) == s
  {
    if s != [] {
      ReversedConcat(Reversed(s[1..]), [s[0]]);
      ReversedTwice(s[1..]);
      assert [s[0]][1..] == [];
    }
  }

  lemma {:induction false} NulsFacts(m: nat)
    ensures Reversed(Nuls(m)) == Nuls(m)
    ensures DropNul(Nuls(m)) == []
  {
    if m > 0 {
      assert Nuls(m) == Nuls(m - 1) + ['\0'] == ['\0'] + Nuls(m - 1);
      assert Nuls(m)[..m - 1] == Nuls(m - 1);
      NulsFacts(m - 1);
      ReversedConcat(Nuls(m - 1), ['\0']);
      assert ['\0'][1..] == [];
    }
  }

  lemma {:induction false} DropNulConcat(a: string, b: string)
    ensures DropNul(a + b) == DropNul(a) + DropNul(b)
    decreases |b|
  {
    if b == [] {
      assert a + b == a;
    } else {
      var c := b[|b| - 1];
      assert b == b[..|b| - 1] + [c];
      assert a + b == (a + b[..|b| - 1]) + [c];
      DropNulSnoc(a + b[..|b| - 1], c);
      DropNulSnoc(b[..|b| - 1], c);
      DropNulConcat(a, b[..|b| - 1]);
    }
  }

  /** Storing a tail backwards in a zero-filled buffer and reading the buffer
      backwards without its zeros gives the tail back (without its NULs). */
  lemma BufferRoundTrip(t: string, m: nat)
    ensures DropNul(Reversed(Reversed(t) + Nuls(m))) == DropNul(t)
  {
    ReversedConcat(Reversed(t), Nuls(m));
    ReversedTwice(t);
    NulsFacts(m);
    DropNulConcat(Nuls(m), t);
  }

  lemma ReversedCons(c: char, rest: string)
    ensures Reversed([c] + rest) == Reversed(rest) + [c]
  {
    assert ([c] + rest)[1..] == rest;
  }

  /** Overwriting the first zero after `r` with `c`. */
  lemma FillSlot(r: string, c: char, m: nat)
    requires m > 0
    ensures (r + Nuls(m))[|r| := c] == r + [c] + Nuls(m - 1)
  {
    var before, after := (r + Nuls(m))[|r| := c], r + [c] + Nuls(m - 1);
    assert |before| == |after|;
    forall i | 0 <= i < |before|
      ensures before[i] == after[i]
    {
      if i > |r| {
        assert before[i] == Nuls(m)[i - |r|] == '\0';
        assert after[i] == Nuls(m - 1)[i - |r| - 1];
      }
    }
  }

  /** One step of the backward loop on the buffer. */
  lemma BufferStep(rest: string, c: char, m: nat)
    requires m > 0
    ensures (Reversed(rest) + Nuls(m))[|rest| := c] == Reversed([c] + rest) + Nuls(m - 1)
  {
    ReversedCons(c, rest);
    FillSlot(Reversed(rest), c, m);
  }

  /** The backward loop of `GenerateDisplayLocation`: walks from the last
      character towards the first, adding each character's width to `tail`
      and storing it in `tailChars[k]`, and stops after the first `\` that is
      not the final character. The rest of `tailChars` keeps its zero fill. */
  method CollectTail(cp: CodePage, location: string) returns (tail: nat, tailChars: array<char>, k: nat)
    ensures fresh(tailChars)
    ensures k <= |location| && |location| - k == TailStart(location)
    ensures tail == Width(cp, location[|location| - k..])
    ensures tailChars[..] == Reversed(location[|location| - k..]) + Nuls(|location| - k)
  {
    var n := |location|;
    tail := 0;
    tailChars := new char[n](_ => '\0');
    k := 0;
    var i := n - 1;
    assert tailChars[..] == Nuls(n);
    while i >= 0
      invariant -1 <= i < n
      invariant k == n - 1 - i
      invariant tail == Width(cp, location[i + 1..])
      invariant tailChars.Length == n
      invariant tailChars[..] == Reversed(location[i + 1..]) + Nuls(n - k)
      invariant forall j :: i < j < n - 1 ==> location[j] != '\\'
    {
      WidthFrom(cp, location, i);
      BufferStep(location[i + 1..], location[i], n - k);
      assert location[i..] == [location[i]] + location[i + 1..];
      tail := tail + ByteCount(cp, location[i]);
      tailChars[k] := location[i];
      k := k + 1;
      if location[i] == '\\' && i != n - 1 {
        break;
      }
      i := i - 1;
    }
    TailStartIs(location, n - k);
  }

  /** The rebuilding loop of `GenerateDisplayLocation`: reads `tailChars`
      from the last slot to the first and appends every character that is not
      `'\0'`. */
  method RebuildTail(tailChars: array<char>) returns (tailStr: string)
    ensures tailStr == DropNul(Reversed(tailChars[..]))
  {
    tailStr := "";
    var j := tailChars.Length - 1;
    while j >= 0
      invariant -1 <= j < tailChars.Length
      invariant tailStr == DropNul(Reversed(tailChars[j + 1..]))
    {
      assert tailChars[j..] == [tailChars[j]] + tailChars[j + 1..];
      assert tailChars[j..][1..] == tailChars[j + 1..];
      DropNulSnoc(Reversed(tailChars[j + 1..]), tailChars[j]);
      if tailChars[j] != '\0' {
        tailStr := tailStr + [tailChars[j]];
      }
      j := j - 1;
    }
    assert tailChars[0..] == tailChars[..];
  }

  /** `GenerateDisplayLocation(location)`: a location that fits is returned
      as it is; otherwise the tail is collected and the result is head,
      ellipsis and tail, or head and ellipsis when the tail leaves no room. */
  method GenerateDisplayLocation(cp: CodePage, location: string) returns (r: string)
    ensures r == ShortForm(cp, location)
  {
    var length := Width(cp, location);
    if length <= MaxWidth {
      return location;
    }

    var tail, tailChars, k := CollectTail(cp, location);
    assert location[|location| - k..] == Tail(location);
    var head := MaxWidth - |Ellipsis| - tail;
    if head >= 3 {
      var sb := StrCut(cp, location, head);
      sb := sb + Ellipsis;
      var tailStr := RebuildTail(tailChars);
      BufferRoundTrip(Tail(location), |location| - k);
      assert tailStr == DropNul(Tail(location));
      r := sb + tailStr;
    } else {
      r := StrCut(cp, location, MaxWidth - |Ellipsis|);
      r := r + Ellipsis;
    }
    assert r == Shortened(cp, location, tail);
  }
}
