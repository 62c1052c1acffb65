/** The default file name offered for a paste: `Clipboard_<yyyyMMdd>`, or the
    first of `Clipboard_<yyyyMMdd> (1)` … `(300)` whose file does not exist
    yet, or `Default` when all 301 candidates are taken. The clock is the
    `today` parameter (already formatted as `yyyyMMdd`) and the file system is
    the set of paths that exist. */
module FileNames {

  /** The largest counter suffix probed. */
  const Bound: nat := 300

  /** The name returned when every candidate is taken. */
  const Fallback := "Default"

  function Digit(d: nat): char
    requires d < 10
  {
    ('0' as int + d) as char
  }

  /** The decimal text of a counter, as C# prints an `int` in a concatenation. */
  function Decimal(n: nat): (s: string)
    ensures |s| > 0
    ensures forall i :: 0 <= i < |s| ==> '0' <= s[i] <= '9'
  {
    if n < 10 then [Digit(n)] else Decimal(n / 10) + [Digit(n % 10)]
  }

  /** Reads back a string of decimal digits. */
  function DecimalValue(s: string): nat
  {
    if s == [] then 0
    else DecimalValue(s[..|s| - 1]) * 10 + (s[|s| - 1] as int - '0' as int) % 10
  }

  lemma {:induction false} DecimalRoundTrip(n: nat)
    ensures DecimalValue(Decimal(n)) == n
  {
    if n >= 10 {
      var s := Decimal(n);
      assert s[..|s| - 1] == Decimal(n / 10);
      DecimalRoundTrip(n / 10);
    }
  }

  function BaseName(today: string): string {
    "Clipboard_" + today
  }

  /** The `n`-th name probed: the base name itself, then `base (n)`. */
  function Candidate(today: string, n: nat): string {
    if n == 0 then BaseName(today) else BaseName(today) + " (" + Decimal(n) + ")"
  }

  /** The path `folder + name + "." + extension` whose existence is probed. */
  function PathOf(folder: string, name: string, extension: string): string {
    folder + name + "." + extension
  }

  predicate Taken(folder: string, extension: string, today: string, existing: set<string>, n: nat) {
    PathOf(folder, Candidate(today, n), extension) in existing
  }

  /** The first free candidate from the `n`-th on, or `Default`. */
  function FirstFree(folder: string, extension: string, today: string, existing: set<string>, n: nat): string
    requires n <= Bound
    decreases Bound - n
  {
    if !Taken(folder, extension, today, existing, n) then Candidate(today, n)
    else if n == Bound then Fallback
    else FirstFree(folder, extension, today, existing, n + 1)
  }

  /** The name `GenerateFileName` chooses. */
  function ChosenName(folder: string, extension: string, today: string, existing: set<string>): string {
    FirstFree(folder, extension, today, existing, 0)
  }

  lemma CandidateNotFallback(today: string, n: nat)
    ensures Candidate(today, n) != Fallback
  {
    assert Candidate(today, n)[0] == 'C' != Fallback[0];
  }

  /** Distinct counters give distinct names. */
  lemma CandidatesDistinct(today: string, i: nat, j: nat)
    requires i != j
    ensures Candidate(today, i) != Candidate(today, j)
  {
    var b := BaseName(today);
    if i != 0 && j != 0 && Candidate(today, i) == Candidate(today, j) {
      var c := Candidate(today, i);
      assert Decimal(i) == c[|b| + 2 .. |c| - 1];
      assert Decimal(j) == c[|b| + 2 .. |c| - 1];
      DecimalRoundTrip(i);
      DecimalRoundTrip(j);
    }
  }

  /** Distinct names in one folder with one extension give distinct paths. */
  lemma PathsDistinct(folder: string, a: string, b: string, extension: string)
    requires a != b
    ensures PathOf(folder, a, extension) != PathOf(folder, b, extension)
  {
    var p, q := PathOf(folder, a, extension), PathOf(folder, b, extension);
    if |a| == |b| {
      assert a == p[|folder| .. |folder| + |a|];
      assert b == q[|folder| .. |folder| + |b|];
    }
  }

  /** The probe from counter `n` on returns `Default` exactly when every
      remaining candidate is taken. */
  lemma {:induction false} FirstFreeFallback(folder: string, extension: string, today: string, existing: set<string>, n: nat)
    requires n <= Bound
    ensures FirstFree(folder, extension, today, existing, n) == Fallback <==>
      forall j :: n <= j <= Bound ==> Taken(folder, extension, today, existing, j)
    decreases Bound - n
  {
    CandidateNotFallback(today, n);
    if Taken(folder, extension, today, existing, n) && n < Bound {
      FirstFreeFallback(folder, extension, today, existing, n + 1);
    }
  }

  /** Otherwise it returns the first candidate, from the `n`-th on, whose path
      is free. */
  lemma {:induction false} FirstFreeFound(folder: string, extension: string, today: string, existing: set<string>, n: nat)
    returns (k: nat)
    requires n <= Bound
    requires FirstFree(folder, extension, today, existing, n) != Fallback
    ensures n <= k <= Bound
    ensures FirstFree(folder, extension, today, existing, n) == Candidate(today, k)
    ensures !Taken(folder, extension, today, existing, k)
    ensures forall j :: n <= j < k ==> Taken(folder, extension, today, existing, j)
    decreases Bound - n
  {
    if !Taken(folder, extension, today, existing, n) {
      k := n;
    } else {
      k := FirstFreeFound(folder, extension, today, existing, n + 1);
    }
  }

  /** A name other than `Default` is free: its file does not exist. */
  lemma ChosenIsFresh(folder: string, extension: string, today: string, existing: set<string>)
    ensures ChosenName(folder, extension, today, existing) != Fallback ==>
      PathOf(folder, ChosenName(folder, extension, today, existing), extension) !in existing
  {
    if ChosenName(folder, extension, today, existing) != Fallback {
      var k := FirstFreeFound(folder, extension, today, existing, 0);
    }
  }

  /** A name other than `Default` is the first free one in probing order. */
  lemma ChosenIsFirstFree(folder: string, extension: string, today: string, existing: set<string>)
    ensures ChosenName(folder, extension, today, existing) != Fallback ==>
      exists k :: 0 <= k <= Bound &&
        ChosenName(folder, extension, today, existing) == Candidate(today, k) &&
        forall j :: 0 <= j < k ==> Taken(folder, extension, today, existing, j)
  {
    if ChosenName(folder, extension, today, existing) != Fallback {
      var k := FirstFreeFound(folder, extension, today, existing, 0);
    }
  }

  /** `Default` comes back exactly when the base name and all of
      `base (1)` … `base (300)` are taken. */
  lemma FallbackIffAllTaken(folder: string, extension: string, today: string, existing: set<string>)
    ensures ChosenName(folder, extension, today, existing) == Fallback <==>
      forall j :: 0 <= j <= Bound ==> Taken(folder, extension, today, existing, j)
  {
    FirstFreeFallback(folder, extension, today, existing, 0);
  }

  /** The paths of the first `m` candidates. */
  function CandidatePaths(folder: string, extension: string, today: string, m: nat): set<string> {
    set j | 0 <= j < m :: PathOf(folder, Candidate(today, j), extension)
  }

  lemma {:induction false} CandidatePathsCount(folder: string, extension: string, today: string, m: nat)
    ensures |CandidatePaths(folder, extension, today, m)| == m
  {
    if m > 0 {
      var last := PathOf(folder, Candidate(today, m - 1), extension);
      assert CandidatePaths(folder, extension, today, m) ==
        CandidatePaths(folder, extension, today, m - 1) + {last};
      forall j | 0 <= j < m - 1
        ensures PathOf(folder, Candidate(today, j), extension) != last
      {
        CandidatesDistinct(today, j, m - 1);
        PathsDistinct(folder, Candidate(today, j), Candidate(today, m - 1), extension);
      }
      CandidatePathsCount(folder, extension, today, m - 1);
    }
  }

  /** With at most 300 files present the probe always finds a free name:
      `Default` needs 301 distinct existing files. */
  lemma FallbackNeedsAllFiles(folder: string, extension: string, today: string, existing: set<string>)
    requires |existing| <= Bound
    ensures ChosenName(folder, extension, today, existing) != Fallback
  {
    if ChosenName(folder, extension, today, existing) == Fallback {
      FallbackIffAllTaken(folder, extension, today, existing);
      forall p | p in CandidatePaths(folder, extension, today, Bound + 1)
        ensures p in existing
      {
        var j :| 0 <= j < Bound + 1 && p == PathOf(folder, Candidate(today, j), extension);
        assert Taken(folder, extension, today, existing, j);
      }
      var probed := CandidatePaths(folder, extension, today, Bound + 1);
      assert existing == probed + (existing - probed);
      CandidatePathsCount(folder, extension, today, Bound + 1);
      assert false;
    }
  }

  /** `GenerateFileName(folder, extension)`: probes the base name, then
      `base (1)`, `base (2)`, …, and gives up with `Default` once the counter
      passes 300. */
  method GenerateFileName(folder: string, extension: string, today: string, existing: set<string>)
    returns (result: string)
    ensures result == ChosenName(folder, extension, today, existing)
    ensures PathOf(folder, BaseName(today), extension) !in existing ==> result == BaseName(today)
    ensures result != Fallback ==> PathOf(folder, result, extension) !in existing
  {
    var defaultFileName := "Clipboard_" + today;
    var path := folder + defaultFileName + "." + extension;
    var newFileName := defaultFileName;
    var i := 0;
    while true
      invariant 0 <= i <= Bound
      invariant newFileName == Candidate(today, i)
      invariant path == PathOf(folder, newFileName, extension)
      invariant FirstFree(folder, extension, today, existing, i) == ChosenName(folder, extension, today, existing)
      decreases Bound - i
    {
      if path in existing {
        i := i + 1;
        newFileName := defaultFileName + " (" + Decimal(i) + ")";
        path := folder + newFileName + "." + extension;
      } else {
        result := newFileName;
        break;
      }
      if i > Bound {
        result := Fallback;
        break;
      }
    }
    ChosenIsFresh(folder, extension, today, existing);
  }

  /** With no file for today yet, the base name itself is offered. */
  lemma ExampleEmptyFolder()
    ensures ChosenName("C:\\Users\\me\\Desktop\\", "png", "20240101", {}) == "Clipboard_20240101"
  {
  }

  /** With `Clipboard_20240101.png` present, the first suffixed name is offered. */
  lemma ExampleOneTaken()
    ensures ChosenName("C:\\Users\\me\\Desktop\\", "png", "20240101",
                       {"C:\\Users\\me\\Desktop\\Clipboard_20240101.png"}) == "Clipboard_20240101 (1)"
  {
    var folder := "C:\\Users\\me\\Desktop\\";
    var existing := {"C:\\Users\\me\\Desktop\\Clipboard_20240101.png"};
    assert BaseName("20240101") == "Clipboard_20240101";
    assert PathOf(folder, "Clipboard_20240101", "png") == "C:\\Users\\me\\Desktop\\Clipboard_20240101.png";
    assert Taken(folder, "png", "20240101", existing, 0);
    assert Decimal(1) == "1";
    assert Candidate("20240101", 1) == "Clipboard_20240101 (1)";
    assert !Taken(folder, "png", "20240101", existing, 1);
  }
}
