/** internal/version/semver.go: SemVer-like numeric cores, their text and their order. */
module SemVers {
  import opened Prelude
  import opened Text

  datatype Precision = Unknown | Major | Minor | Patch {
    /** The iota value behind Go's comparison of precisions. */
    function Rank(): nat
    {
      match this
      case Unknown => 0
      case Major => 1
      case Minor => 2
      case Patch => 3
    }
  }

  datatype SemVer = SemVer(
    major: nat, minor: nat, patch: nat, prerelease: string, precision: Precision, raw: string)
  {
    function String(): (s: string)
    {
      match precision
      case Major => Itoa(major)
      case Minor => Itoa(major) + "." + Itoa(minor)
      case Patch => Itoa(major) + "." + Itoa(minor) + "." + Itoa(patch)
      case Unknown => raw
    }

    function Compare(other: SemVer): (r: int)
    {
      if major != other.major then Cmp(major, other.major)
      else if minor != other.minor then Cmp(minor, other.minor)
      else if patch != other.patch then Cmp(patch, other.patch)
      else 0
    }

    predicate Newer(other: SemVer)
    {
      Compare(other) > 0
    }

    /** The numbers the rendered text spells out. */
    function Numbers(): (ns: seq<nat>)
    {
      match precision
      case Major => [major]
      case Minor => [major, minor]
      case Patch => [major, minor, patch]
      case Unknown => []
    }

    /** What a parser produces: the parts beyond the precision are zero, and every number fits an int. */
    predicate Normal()
    {
      && precision != Unknown
      && (precision == Major ==> minor == 0)
      && (precision != Patch ==> patch == 0)
      && InRange(Numbers())
    }
  }

  /** Go's zero SemVer, carried by a base component without a usable version. */
  const ZERO := SemVer(0, 0, 0, "", Unknown, "")

  predicate InRange(ns: seq<nat>)
  {
    forall i | 0 <= i < |ns| :: ns[i] <= MAX_INT
  }

  function Cmp(a: int, b: int): (r: int)
  {
    if a < b then -1 else if a > b then 1 else 0
  }

  /** Comparison is a total preorder whose ties are exactly equal numbers, whatever the precision. */
  lemma CompareIsTotalPreorder(a: SemVer, b: SemVer, c: SemVer)
    ensures a.Compare(b) == -b.Compare(a)
    ensures a.Compare(b) <= 0 && b.Compare(c) <= 0 ==> a.Compare(c) <= 0
    ensures a.Compare(b) <= 0 && b.Compare(c) < 0 ==> a.Compare(c) < 0
    ensures a.Compare(b) == 0 <==> (a.major, a.minor, a.patch) == (b.major, b.minor, b.patch)
  {
  }

  // ------------------------------------------------------------------ parsing

  datatype SemVerError = TooManyParts | EmptyComponent | NotNonNegativeInteger

  function ParseNumber(part: string): (r: Result<nat, SemVerError>)
  {
    if part == "" then Failure(EmptyComponent)
    else
      match Atoi(part)
      case None => Failure(NotNonNegativeInteger)
      case Some(n) => if n < 0 then Failure(NotNonNegativeInteger) else Success(n)
  }

  /** All parts as numbers, or the error of the first bad one. */
  function ParseNumbers(parts: seq<string>): (r: Result<seq<nat>, SemVerError>)
    ensures r.Success? ==> |r.value| == |parts|
  {
    if parts == [] then Success([])
    else
      match ParseNumbers(parts[..|parts| - 1])
      case Failure(e) => Failure(e)
      case Success(ns) =>
        match ParseNumber(parts[|parts| - 1])
        case Failure(e) => Failure(e)
        case Success(n) => Success(ns + [n])
  }

  function SemVerOf(ns: seq<nat>, prerelease: string, raw: string): (v: SemVer)
    requires 1 <= |ns| <= 3
  {
    if |ns| == 1 then SemVer(ns[0], 0, 0, prerelease, Major, raw)
    else if |ns| == 2 then SemVer(ns[0], ns[1], 0, prerelease, Minor, raw)
    else SemVer(ns[0], ns[1], ns[2], prerelease, Patch, raw)
  }

  function CoreOf(raw: string): string
  {
    var s := TrimPrefix(raw, "v");
    s[..IndexAny(s, "-+")]
  }

  function PrereleaseOf(raw: string): string
  {
    var s := TrimPrefix(raw, "v");
    var i := IndexAny(s, "-+");
    if i < |s| then s[i + 1..] else ""
  }

  function Parsed(raw: string): (r: Result<SemVer, SemVerError>)
  {
    var parts := Split(CoreOf(raw), '.');
    if |parts| > 3 then Failure(TooManyParts)
    else
      match ParseNumbers(parts)
      case Failure(e) => Failure(e)
      case Success(ns) => Success(SemVerOf(ns, PrereleaseOf(raw), raw))
  }

  lemma {:induction false} FirstBadPartDecides(parts: seq<string>, k: nat)
    requires k <= |parts| && ParseNumbers(parts[..k]).Failure?
    ensures ParseNumbers(parts) == ParseNumbers(parts[..k])
  {
    if k < |parts| {
      var front := parts[..|parts| - 1];
      assert front[..k] == parts[..k];
      FirstBadPartDecides(front, k);
    } else {
      assert parts[..k] == parts;
    }
  }

  lemma ParseNumbersStep(parts: seq<string>, i: nat)
    requires i < |parts| && ParseNumbers(parts[..i]).Success?
    ensures
      match ParseNumber(parts[i])
      case Success(n) => ParseNumbers(parts[..i + 1]) == Success(ParseNumbers(parts[..i]).value + [n])
      case Failure(e) => ParseNumbers(parts) == Failure(e)
  {
    assert parts[..i + 1][..i] == parts[..i];
    if ParseNumber(parts[i]).Failure? {
      FirstBadPartDecides(parts, i + 1);
    }
  }

  method ParseSemVer(raw: string) returns (r: Result<SemVer, SemVerError>)
    ensures r == Parsed(raw)
  {
    var s := TrimPrefix(raw, "v");
    var core, prerelease := s, "";
    var idx := IndexAny(s, "-+");
    if idx != |s| {
      core, prerelease := s[..idx], s[idx + 1..];
    }
    assert core == CoreOf(raw) && prerelease == PrereleaseOf(raw);

    var parts := Split(core, '.');
    if |parts| == 0 || |parts| > 3 {
      return Failure(TooManyParts);
    }
    var nums := new nat[|parts|];
    for i := 0 to |parts|
      invariant ParseNumbers(parts[..i]) == Success(nums[..i])
    {
      var p := parts[i];
      ParseNumbersStep(parts, i);
      if p == "" {
        return Failure(EmptyComponent);
      }
      var n := Atoi(p);
      if n.None? || n.value < 0 {
        return Failure(NotNonNegativeInteger);
      }
      nums[i] := n.value;
      assert nums[..i + 1] == nums[..i] + [nums[i]];
    }
    assert parts[..|parts|] == parts && nums[..|parts|] == nums[..];
    if nums.Length == 1 {
      r := Success(SemVer(nums[0], 0, 0, prerelease, Major, raw));
    } else if nums.Length == 2 {
      r := Success(SemVer(nums[0], nums[1], 0, prerelease, Minor, raw));
    } else {
      r := Success(SemVer(nums[0], nums[1], nums[2], prerelease, Patch, raw));
    }
  }

  // --------------------------------------------------------------- round trip

  function Itoas(ns: seq<nat>): (texts: seq<string>)
    ensures |texts| == |ns|
    ensures forall i | 0 <= i < |ns| :: texts[i] == Itoa(ns[i])
  {
    seq(|ns|, i requires 0 <= i < |ns| => Itoa(ns[i]))
  }

  lemma {:induction false} ParseNumberOfItoa(n: nat)
    ensures ParseNumber(Itoa(n)) == if n <= MAX_INT then Success(n) else Failure(NotNonNegativeInteger)
  {
    ValueOfItoa(n);
    assert IsDigit(Itoa(n)[0]);
  }

  /** The decimal texts of a list of numbers parse to that list when all are in range, and fail otherwise. */
  lemma {:induction false} ParseNumbersOfItoas(ns: seq<nat>)
    ensures
      ParseNumbers(Itoas(ns)) ==
        if InRange(ns) then Success(ns) else Failure(NotNonNegativeInteger)
  {
    var texts := Itoas(ns);
    if ns != [] {
      var front := ns[..|ns| - 1];
      assert texts[..|ns| - 1] == Itoas(front);
      ParseNumbersOfItoas(front);
      ParseNumberOfItoa(ns[|ns| - 1]);
      assert ns == front + [ns[|ns| - 1]];
    }
  }

  lemma {:induction false} DigitsHaveNoSeparator(s: string)
    requires AllDigits(s)
    ensures '.' !in s && '-' !in s && '+' !in s && 'v' !in s
  {
  }

  /** Rendering is the dot-joined decimal texts of the numbers. */
  lemma StringIsJoin(v: SemVer)
    requires v.precision != Unknown
    ensures
      v.String() == Join(Itoas(v.Numbers()), '.')
  {
    var ns := v.Numbers();
    var texts := Itoas(ns);
    assert texts == match v.precision
      case Major => [Itoa(v.major)]
      case Minor => [Itoa(v.major), Itoa(v.minor)]
      case _ => [Itoa(v.major), Itoa(v.minor), Itoa(v.patch)];
    if v.precision == Minor {
      assert texts[1..] == [Itoa(v.minor)];
    } else if v.precision == Patch {
      assert texts[1..] == [Itoa(v.minor), Itoa(v.patch)];
      assert texts[1..][1..] == [Itoa(v.patch)];
      var a, b, c := Itoa(v.major), Itoa(v.minor), Itoa(v.patch);
      assert Join(texts[1..], '.') == b + ['.'] + c;
      assert a + "." + b + "." + c == a + ['.'] + (b + ['.'] + c);
    }
  }

  lemma StringHasNoSuffix(v: SemVer)
    requires v.precision != Unknown
    ensures forall c <- v.String() :: c == '.' || IsDigit(c)
  {
  }

  lemma CoreWithoutSuffix(raw: string)
    requires '-' !in raw && '+' !in raw
    ensures CoreOf(raw) == TrimPrefix(raw, "v") && PrereleaseOf(raw) == ""
  {
  }

  /**
    A version rendered at its precision, with or without the "v", parses back to the same numbers and
    precision exactly when those numbers fit a 64-bit int; otherwise it is rejected.
  */
  lemma RenderedVersionParsesBack(v: SemVer, prefix: string)
    requires v.precision != Unknown && prefix in {"", "v"}
    ensures
      var raw := prefix + v.String();
      Parsed(raw) ==
        if InRange(v.Numbers())
        then Success(SemVerOf(v.Numbers(), "", raw))
        else Failure(NotNonNegativeInteger)
    ensures SemVerOf(v.Numbers(), "", "").precision == v.precision
    ensures SemVerOf(v.Numbers(), "", "").Numbers() == v.Numbers()
  {
    hide Split, Join, Itoa, ParseNumbers;
    var raw := prefix + v.String();
    var ns := v.Numbers();
    var texts := Itoas(ns);
    StringHasNoSuffix(v);
    if prefix == "v" {
      assert raw[1..] == v.String();
    } else {
      assert raw == v.String() && raw[0] != 'v';
    }
    assert TrimPrefix(raw, "v") == v.String();
    assert '-' !in raw && '+' !in raw;
    CoreWithoutSuffix(raw);
    StringIsJoin(v);
    forall k | 0 <= k < |texts| ensures '.' !in texts[k] {
      DigitsHaveNoSeparator(texts[k]);
    }
    SplitOfJoin(texts, '.');
    ParseNumbersOfItoas(ns);
  }

  lemma {:induction false} ParsedNumbersInRange(parts: seq<string>)
    requires ParseNumbers(parts).Success?
    ensures InRange(ParseNumbers(parts).value)
  {
    if parts != [] {
      ParsedNumbersInRange(parts[..|parts| - 1]);
    }
  }

  lemma ParsedIsNormal(raw: string)
    requires Parsed(raw).Success?
    ensures Parsed(raw).value.Normal()
  {
    var parts := Split(CoreOf(raw), '.');
    ParsedNumbersInRange(parts);
    SemVerOfIsNormal(ParseNumbers(parts).value, PrereleaseOf(raw), raw);
  }

  lemma SemVerOfIsNormal(ns: seq<nat>, prerelease: string, raw: string)
    requires 1 <= |ns| <= 3 && InRange(ns)
    ensures SemVerOf(ns, prerelease, raw).Normal()
  {
  }

  /** Every accepted text has a rendering that parses to the same version, without its suffix. */
  lemma ParsedVersionRendersBack(raw: string)
    ensures Parsed(raw).Success? ==>
      var v := Parsed(raw).value;
      Parsed(v.String()) == Success(v.(raw := v.String(), prerelease := ""))
  {
    if Parsed(raw).Success? {
      ParsedIsNormal(raw);
      var v := Parsed(raw).value;
      RenderedVersionParsesBack(v, "");
      assert "" + v.String() == v.String();
    }
  }

  // ----------------------------------------------------- the version patterns

  /** The length of the run of digits s starts with. */
  function DigitRun(s: string): (n: nat)
    ensures n <= |s| && AllDigits(s[..n])
    ensures n < |s| ==> !IsDigit(s[n])
  {
    if s == [] || !IsDigit(s[0]) then 0 else 1 + DigitRun(s[1..])
  }

  /** The pattern \d+(?:\.\d+){0,more}, matched against all of s. */
  predicate MatchesCore(s: string, more: nat)
  {
    var n := DigitRun(s);
    n > 0 && (n == |s| || (s[n] == '.' && more > 0 && MatchesCore(s[n + 1..], more - 1)))
  }

  /** The pattern v?\d+(?:\.\d+){0,2}, matched against all of s (internal/version/resolver.go:6). */
  predicate IsVersionToken(s: string)
  {
    MatchesCore(TrimPrefix(s, "v"), 2)
  }

  predicate AllNumerals(parts: seq<string>)
  {
    forall i | 0 <= i < |parts| :: parts[i] != "" && AllDigits(parts[i])
  }

  /** The pattern accepts exactly the dot-separated lists of at most more + 1 non-empty digit strings. */
  lemma {:induction false} CoreIsDottedDigits(s: string, more: nat)
    ensures MatchesCore(s, more) <==>
      && |Split(s, '.')| <= more + 1
      && AllNumerals(Split(s, '.'))
    decreases |s|
  {
    var n := DigitRun(s);
    DigitsHaveNoSeparator(s[..n]);
    if n == |s| {
      assert s[..n] == s;
      SplitWhole(s, '.');
    } else if s[n] == '.' {
      var tail := s[n + 1..];
      assert s == s[..n] + ['.'] + tail;
      SplitHead(s[..n], tail, '.');
      AllNumeralsCons(s[..n], Split(tail, '.'));
      if more > 0 {
        CoreIsDottedDigits(tail, more - 1);
      }
    } else {
      assert n < IndexOf(s, '.');
      assert !AllDigits(Split(s, '.')[0]) by {
        assert !IsDigit(Split(s, '.')[0][n]);
      }
    }
  }

  lemma AllNumeralsCons(head: string, tail: seq<string>)
    ensures AllNumerals([head] + tail) <==> head != "" && AllDigits(head) && AllNumerals(tail)
  {
    var parts := [head] + tail;
    assert parts[0] == head;
    assert forall i | 0 <= i < |tail| :: tail[i] == parts[i + 1];
  }

  lemma {:induction false} ParseNumbersOfDigits(parts: seq<string>)
    requires AllNumerals(parts)
    ensures ParseNumbers(parts).Success? <==> forall i | 0 <= i < |parts| :: ValueOf(parts[i]) <= MAX_INT
  {
    if parts != [] {
      var front, last := parts[..|parts| - 1], parts[|parts| - 1];
      ParseNumbersOfDigits(front);
      assert IsDigit(last[0]);
    }
  }

  /** A token of the version pattern is parsed unless one of its numbers overflows an int. */
  lemma VersionTokenParses(s: string)
    requires IsVersionToken(s)
    ensures
      var parts := Split(TrimPrefix(s, "v"), '.');
      AllNumerals(parts) &&
      (Parsed(s).Success? <==> forall i | 0 <= i < |parts| :: ValueOf(parts[i]) <= MAX_INT)
  {
    var t := TrimPrefix(s, "v");
    CoreIsDottedDigits(t, 2);
    var parts := Split(t, '.');
    JoinOfSplit(t, '.');
    JoinedDigitsHaveNoSuffix(parts);
    if "v" <= s {
      assert s == "v" + t;
    }
    CoreWithoutSuffix(s);
    ParseNumbersOfDigits(parts);
  }

  lemma {:induction false} JoinedDigitsHaveNoSuffix(parts: seq<string>)
    requires AllNumerals(parts)
    ensures '-' !in Join(parts, '.') && '+' !in Join(parts, '.')
  {
    if parts != [] {
      DigitsHaveNoSeparator(parts[0]);
      JoinedDigitsHaveNoSuffix(parts[1..]);
    }
  }

  // ------------------------------------------------- versions, by their numbers

  /** The first number that differs decides: major, then minor, then patch. */
  lemma FirstDifferenceDecides(v: SemVer, w: SemVer)
    ensures v.Newer(w) <==>
      || v.major > w.major
      || (v.major == w.major && v.minor > w.minor)
      || (v.major == w.major && v.minor == w.minor && v.patch > w.patch)
    ensures v.Compare(w) < 0 <==> w.Newer(v)
  {
  }

  /** More numbers make a version more precise. */
  lemma PrecisionCountsNumbers(v: SemVer)
    ensures v.precision.Rank() == |v.Numbers()|
  {
  }

  lemma PrefixIsTrimmed(s: string, prefix: string)
    requires prefix in {"", "v"} && (s != "" ==> s[0] != 'v')
    ensures TrimPrefix(prefix + s, "v") == s
  {
    assert (prefix + s)[|prefix|..] == s;
    if prefix == "" {
      assert prefix + s == s;
    }
  }

  lemma SuffixStarts(core: string, suffix: string)
    requires suffix != "" ==> suffix[0] in "-+"
    requires forall c <- core :: c !in "-+"
    ensures IndexAny(core + suffix, "-+") == |core|
  {
    var s := core + suffix;
    forall k | 0 <= k < |core| ensures s[k] !in "-+" {
      assert s[k] == core[k] && core[k] in core;
    }
    if suffix != "" {
      assert s[|core|] == suffix[0];
    }
  }

  lemma SuffixIsCut(core: string, prefix: string, suffix: string)
    requires prefix in {"", "v"} && (suffix != "" ==> suffix[0] in "-+")
    requires core != "" && core[0] != 'v' && forall c <- core :: c !in "-+"
    ensures
      var raw := prefix + core + suffix;
      CoreOf(raw) == core && PrereleaseOf(raw) == if suffix == "" then "" else suffix[1..]
  {
    hide IndexAny, TrimPrefix;
    var s := core + suffix;
    assert prefix + core + suffix == prefix + s && s[0] == core[0];
    PrefixIsTrimmed(s, prefix);
    SuffixStarts(core, suffix);
    assert s[..|core|] == core && (suffix != "" ==> s[|core| + 1..] == suffix[1..]);
  }

  /** One, two or three decimal numbers, an optional "v", an optional suffix after the first dash or plus: what each means. */
  lemma VersionTextReads(v: SemVer, prefix: string, suffix: string)
    requires v.precision != Unknown && prefix in {"", "v"} && (suffix != "" ==> suffix[0] in "-+")
    ensures
      var text := match v.precision
        case Major => Itoa(v.major)
        case Minor => Itoa(v.major) + "." + Itoa(v.minor)
        case _ => Itoa(v.major) + "." + Itoa(v.minor) + "." + Itoa(v.patch);
      var raw, prerelease := prefix + text + suffix, if suffix == "" then "" else suffix[1..];
      Parsed(raw) ==
        match v.precision
        case Major =>
          if v.major <= MAX_INT then Success(SemVer(v.major, 0, 0, prerelease, Major, raw)) else Failure(NotNonNegativeInteger)
        case Minor =>
          if v.major <= MAX_INT && v.minor <= MAX_INT then Success(SemVer(v.major, v.minor, 0, prerelease, Minor, raw))
          else Failure(NotNonNegativeInteger)
        case _ =>
          if v.major <= MAX_INT && v.minor <= MAX_INT && v.patch <= MAX_INT
          then Success(SemVer(v.major, v.minor, v.patch, prerelease, Patch, raw)) else Failure(NotNonNegativeInteger)
  {
    hide Split, Join, Itoa, ParseNumbers, CoreOf, PrereleaseOf;
    var core, texts := v.String(), Itoas(v.Numbers());
    StringHasNoSuffix(v);
    FirstIsDigit(v);
    SuffixIsCut(core, prefix, suffix);
    StringIsJoin(v);
    forall k | 0 <= k < |texts| ensures '.' !in texts[k] {
      DigitsHaveNoSeparator(texts[k]);
    }
    SplitOfJoin(texts, '.');
    ParseNumbersOfItoas(v.Numbers());
  }

  lemma FirstIsDigit(v: SemVer)
    requires v.precision != Unknown
    ensures v.String() != "" && IsDigit(v.String()[0])
  {
    assert IsDigit(Itoa(v.major)[0]);
  }
}
