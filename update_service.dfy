/**
 * The start-up update check: compare the latest release's tag with the
 * running version, pick a downloadable asset, ask the user with a 10 second
 * timeout, and draw a progress bar while the asset downloads.
 *
 * The HTTP requests, the JSON decoding, the file and zip handling, the batch
 * script and the process exit are not modelled: the fetched release arrives
 * as a value (None when the request failed or threw), the console's
 * KeyAvailable as a function from poll number to answer, and the downloaded
 * stream as the sequence of its read counts.
 */
module Update {
  import opened Wrappers
  import opened Text

  datatype Asset = Asset(name: string, browserDownloadUrl: string, size: int)
  datatype Release = Release(tagName: string, body: string, assets: seq<Asset>)

  // ---------------------------------------------------------------------------
  // Tag clean-up
  // ---------------------------------------------------------------------------

  predicate IsV(c: char) {
    c == 'v' || c == 'V'
  }

  /** String.TrimStart('v', 'V'): every leading v or V is removed, not just one. */
  function TrimLeadingVs(s: string): (r: string)
    ensures |r| <= |s| && r == s[|s| - |r|..]
    ensures r == [] || !IsV(r[0])
    ensures forall i | 0 <= i < |s| - |r| :: IsV(s[i])
  {
    if |s| > 0 && IsV(s[0]) then TrimLeadingVs(s[1..]) else s
  }

  // ---------------------------------------------------------------------------
  // Version.TryParse and Version comparison
  // ---------------------------------------------------------------------------

  /** The largest component Version accepts: Int32.MaxValue. */
  const MaxComponent := 0x7FFF_FFFF

  /**
   * A parsed version. Build and revision are -1 when the text has no such
   * component, which is how Version compares them: 1.2 is older than 1.2.0.
   */
  datatype Version = Version(major: nat, minor: nat, build: int, revision: int)

  predicate WellFormed(v: Version) {
    && v.major <= MaxComponent && v.minor <= MaxComponent
    && -1 <= v.build <= MaxComponent && -1 <= v.revision <= MaxComponent
    && (v.build == -1 ==> v.revision == -1)
  }

  /** Splits at every '.', keeping empty pieces, as String.Split('.') does. */
  function SplitOnDots(s: string): (parts: seq<string>)
    ensures |parts| >= 1
    ensures forall i | 0 <= i < |parts| :: '.' !in parts[i]
    ensures s != [] && s[0] != '.' ==> parts[0] != [] && parts[0][0] == s[0]
  {
    if s == [] then [[]]
    else
      var rest := SplitOnDots(s[1..]);
      if s[0] == '.' then [[]] + rest else [[s[0]] + rest[0]] + rest[1..]
  }

  function JoinWithDots(parts: seq<string>): string
    requires |parts| >= 1
  {
    if |parts| == 1 then parts[0] else parts[0] + "." + JoinWithDots(parts[1..])
  }

  predicate IsDigit(c: char) {
    '0' <= c <= '9'
  }

  predicate AllDigits(s: string) {
    forall i | 0 <= i < |s| :: IsDigit(s[i])
  }

  /** The value of a string of decimal digits. */
  function DigitsValue(s: string): nat
    requires AllDigits(s)
  {
    if s == [] then 0 else DigitsValue(s[..|s| - 1]) * 10 + (s[|s| - 1] as int - '0' as int)
  }

  /** One component of Version.TryParse: a non-empty run of digits no larger than Int32.MaxValue. */
  function ParseComponent(s: string): Option<nat> {
    if s != [] && AllDigits(s) && DigitsValue(s) <= MaxComponent then Some(DigitsValue(s)) else None
  }

  function ParseComponents(parts: seq<string>): (r: Option<seq<nat>>)
    ensures r.Some? <==> forall i | 0 <= i < |parts| :: ParseComponent(parts[i]).Some?
    ensures r.Some? ==> (|r.value| == |parts|
      && forall i | 0 <= i < |parts| :: ParseComponent(parts[i]) == Some(r.value[i]))
  {
    if parts == [] then Some([])
    else match (ParseComponent(parts[0]), ParseComponents(parts[1..]))
      case (Some(n), Some(ns)) => Some([n] + ns)
      case _ => None
  }

  function FromComponents(ns: seq<nat>): Version
    requires 2 <= |ns| <= 4
  {
    Version(ns[0], ns[1], if |ns| > 2 then ns[2] else -1, if |ns| > 3 then ns[3] else -1)
  }

  /** Version.TryParse: two to four dot-separated components. */
  function ParseVersion(s: string): (r: Option<Version>)
    ensures r.Some? ==> WellFormed(r.value)
  {
    var parts := SplitOnDots(s);
    if 2 <= |parts| <= 4 then
      match ParseComponents(parts)
      case Some(ns) => Some(FromComponents(ns))
      case None => None
    else None
  }

  /** Version's "<": major, then minor, then build, then revision. */
  predicate Older(a: Version, b: Version): (r: bool)
    ensures r ==> a != b && a.major <= b.major
    ensures a.major < b.major ==> r
  {
    if a.major != b.major then a.major < b.major
    else if a.minor != b.minor then a.minor < b.minor
    else if a.build != b.build then a.build < b.build
    else a.revision < b.revision
  }

  /** Whether the release tag names a version strictly newer than the running one. */
  function ShouldUpdate(tagName: string, currentVersion: string): (r: bool)
    ensures r ==> ParseVersion(TrimLeadingVs(tagName)).Some? && ParseVersion(currentVersion).Some?
    ensures r ==> TrimLeadingVs(tagName) != currentVersion
  {
    var remote := ParseVersion(TrimLeadingVs(tagName));
    var current := ParseVersion(currentVersion);
    remote.Some? && current.Some? && Older(current.value, remote.value)
  }

  // ---------------------------------------------------------------------------
  // Printing versions, the inverse of parsing
  // ---------------------------------------------------------------------------

  function DigitChar(d: nat): char
    requires d < 10
  {
    ('0' as int + d) as char
  }

  /** Decimal digits of n, without leading zeros. */
  function ShowNumber(n: nat): (s: string)
    ensures s != [] && AllDigits(s)
  {
    if n < 10 then [DigitChar(n)] else ShowNumber(n / 10) + [DigitChar(n % 10)]
  }

  function Components(v: Version): seq<nat>
    requires WellFormed(v)
  {
    [v.major, v.minor]
      + (if v.build >= 0 then [v.build as nat] else [])
      + (if v.revision >= 0 then [v.revision as nat] else [])
  }

  function ShowNumbers(ns: seq<nat>): (parts: seq<string>)
    ensures |parts| == |ns| && forall i | 0 <= i < |ns| :: parts[i] == ShowNumber(ns[i])
  {
    seq(|ns|, i requires 0 <= i < |ns| => ShowNumber(ns[i]))
  }

  /** Version.ToString: the components that are present, joined by dots. */
  function ShowVersion(v: Version): string
    requires WellFormed(v)
  {
    JoinWithDots(ShowNumbers(Components(v)))
  }

  // ---------------------------------------------------------------------------
  // Asset choice and the prompt
  // ---------------------------------------------------------------------------

  /** String.EndsWith with StringComparison.OrdinalIgnoreCase. */
  predicate EndsWithIgnoreCase(s: string, suffix: string) {
    |suffix| <= |s| && ToUpper(s[|s| - |suffix|..]) == ToUpper(suffix)
  }

  predicate HasExtension(a: Asset, ext: string) {
    EndsWithIgnoreCase(a.name, ext)
  }

  /** Index i holds the first asset with the extension. */
  predicate IsFirstWith(assets: seq<Asset>, ext: string, i: int) {
    && 0 <= i < |assets| && HasExtension(assets[i], ext)
    && forall j | 0 <= j < i :: !HasExtension(assets[j], ext)
  }

  predicate NoneWith(assets: seq<Asset>, ext: string) {
    forall j | 0 <= j < |assets| :: !HasExtension(assets[j], ext)
  }

  /** List.Find: the first asset whose name ends with the extension. */
  function Find(assets: seq<Asset>, ext: string): (r: Option<nat>)
    ensures r.Some? ==> IsFirstWith(assets, ext, r.value)
    ensures r.None? ==> NoneWith(assets, ext)
  {
    if assets == [] then None
    else if HasExtension(assets[0], ext) then Some(0)
    else match Find(assets[1..], ext)
      case Some(i) => Some(i + 1)
      case None => None
  }

  /** The first .zip asset if there is one, wherever the .exe assets are; else the first .exe. */
  function SelectAsset(assets: seq<Asset>): (r: Option<Asset>)
    ensures r.None? <==> NoneWith(assets, ".zip") && NoneWith(assets, ".exe")
    ensures r.Some? && !NoneWith(assets, ".zip") ==>
      exists i | 0 <= i < |assets| :: IsFirstWith(assets, ".zip", i) && r.value == assets[i]
    ensures r.Some? && NoneWith(assets, ".zip") ==>
      exists i | 0 <= i < |assets| :: IsFirstWith(assets, ".exe", i) && r.value == assets[i]
  {
    match Find(assets, ".zip")
    case Some(i) => Some(assets[i])
    case None =>
      match Find(assets, ".exe")
      case Some(i) => Some(assets[i])
      case None => None
  }

  /** What the user did at the prompt: nothing within the timeout, or pressed a key (Y or another). */
  datatype Reply = NoReply | KeyPressed(isY: bool)

  datatype PromptOutcome = NoAsset | Skipped | Download(asset: Asset)

  /** PromptUpdateAsync's decision: no asset, skip, or download the chosen asset. */
  function PromptDecision(release: Release, reply: Reply): (r: PromptOutcome)
    ensures r == NoAsset <==> SelectAsset(release.assets).None?
    ensures r.Download? <==> SelectAsset(release.assets).Some? && reply == KeyPressed(true)
    ensures r.Download? ==> Some(r.asset) == SelectAsset(release.assets)
  {
    match SelectAsset(release.assets)
    case None => NoAsset
    case Some(a) => if reply == KeyPressed(true) then Download(a) else Skipped
  }

  // ---------------------------------------------------------------------------
  // Waiting for a key
  // ---------------------------------------------------------------------------

  const PollIntervalMs := 100
  const PromptTimeoutMs := 10000

  /** How many times the wait polls the console when no key comes: the timeout in 100 ms steps, rounded up. */
  function PollCount(timeoutMs: int): (n: nat)
    ensures timeoutMs <= 0 ==> n == 0
    ensures timeoutMs > 0 ==> PollIntervalMs * (n - 1) < timeoutMs <= PollIntervalMs * n
  {
    if timeoutMs <= 0 then 0 else (timeoutMs + PollIntervalMs - 1) / PollIntervalMs
  }

  /**
   * WaitForInput: polls keyAvailable every 100 ms until the timeout; true at
   * the first poll that sees a key. polls counts the KeyAvailable chunks.
   */
  method WaitForInput(timeoutMs: int, keyAvailable: nat -> bool) returns (hasInput: bool, polls: nat)
    ensures hasInput <==> exists i | 0 <= i < PollCount(timeoutMs) :: keyAvailable(i)
    ensures hasInput ==> (1 <= polls <= PollCount(timeoutMs) && keyAvailable(polls - 1)
      && forall i | 0 <= i < polls - 1 :: !keyAvailable(i))
    ensures !hasInput ==> polls == PollCount(timeoutMs)
  {
    var elapsed := 0;
    polls := 0;
    while elapsed < timeoutMs
      invariant elapsed == PollIntervalMs * polls
      invariant polls <= PollCount(timeoutMs)
      invariant forall i | 0 <= i < polls :: !keyAvailable(i)
      decreases timeoutMs - elapsed
    {
      polls := polls + 1;
      if keyAvailable(polls - 1) {
        return true, polls;
      }
      elapsed := elapsed + PollIntervalMs;
    }
    return false, polls;
  }

  /** PromptUpdateAsync: choose an asset, wait up to 10 s for a key, download only on Y. */
  method PromptUpdate(release: Release, keyAvailable: nat -> bool, keyIsY: bool) returns (outcome: PromptOutcome)
    ensures outcome == PromptDecision(release,
      if exists i | 0 <= i < PollCount(PromptTimeoutMs) :: keyAvailable(i) then KeyPressed(keyIsY) else NoReply)
  {
    var asset := SelectAsset(release.assets);
    if asset.None? {
      return NoAsset;
    }
    var hasInput, _ := WaitForInput(PromptTimeoutMs, keyAvailable);
    if hasInput && keyIsY {
      return Download(asset.value);
    }
    return Skipped;
  }

  /**
   * CheckForUpdatesAsync: true when the prompt chose to download, meant to
   * tell the caller that an update is under way; Main ignores the result. A
   * failed request (fetched == None) and an up-to-date version both give false.
   */
  method CheckForUpdates(fetched: Option<Release>, currentVersion: string, keyAvailable: nat -> bool, keyIsY: bool)
    returns (updating: bool)
    ensures updating <==> (fetched.Some? && ShouldUpdate(fetched.value.tagName, currentVersion)
      && PromptDecision(fetched.value,
           if exists i | 0 <= i < PollCount(PromptTimeoutMs) :: keyAvailable(i) then KeyPressed(keyIsY) else NoReply).Download?)
  {
    if fetched.None? {
      return false;
    }
    if !ShouldUpdate(fetched.value.tagName, currentVersion) {
      return false;
    }
    var outcome := PromptUpdate(fetched.value, keyAvailable, keyIsY);
    updating := outcome.Download?;
  }

  // ---------------------------------------------------------------------------
  // Download progress
  // ---------------------------------------------------------------------------

  const BarWidth := 40
  const BufferSize := 8192

  /**
   * What DrawProgressBar does: nothing when the total is unknown; a bar of
   * filled '#' and 40 - filled '-' otherwise; and when the fill falls outside
   * 0..40 the string constructor throws, shown as Overrun.
   */
  datatype Bar = NoOutput | Drawn(bar: string) | Overrun

  /** (int)(current / total * 40): the fill, truncated toward zero. */
  function Fill(current: int, total: int): (filled: int)
    requires total > 0
    ensures current >= 0 ==> filled * total <= BarWidth * current < (filled + 1) * total
    ensures current < 0 ==> (filled - 1) * total < BarWidth * current <= filled * total
  {
    if current >= 0 then BarWidth * current / total else -(BarWidth * -current / total)
  }

  function Repeat(c: char, n: nat): (s: string)
    ensures |s| == n && forall i | 0 <= i < n :: s[i] == c
  {
    seq(n, _ => c)
  }

  function ProgressBar(current: int, total: int): (b: Bar)
    ensures total <= 0 <==> b == NoOutput
    ensures 0 <= current <= total && total > 0 ==> b.Drawn?
    ensures b.Drawn? ==> |b.bar| == BarWidth + 2 && b.bar[0] == '[' && b.bar[BarWidth + 1] == ']'
    ensures total > 0 ==> (b.Overrun? <==> !(0 <= Fill(current, total) <= BarWidth))
    ensures b.Drawn? ==>
      && total > 0
      && forall i | 1 <= i <= BarWidth :: b.bar[i] == (if i <= Fill(current, total) then '#' else '-')
  {
    if total <= 0 then NoOutput
    else
      FillWithinBar(current, total);
      var filled := Fill(current, total);
      if 0 <= filled <= BarWidth then
        Drawn("[" + Repeat('#', filled) + Repeat('-', BarWidth - filled) + "]")
      else Overrun
  }

  function Sum(chunks: seq<nat>): nat {
    if chunks == [] then 0 else Sum(chunks[..|chunks| - 1]) + chunks[|chunks| - 1]
  }

  /**
   * The download loop: each read adds to totalRead and redraws the bar.
   * chunks are the byte counts of the reads that returned data; the loop stops
   * at the first read that returns none, or at the first bar that overruns,
   * whose exception leaves the loop.
   */
  method DownloadProgress(chunks: seq<nat>, size: int) returns (totalRead: nat, bars: seq<Bar>)
    requires forall i | 0 <= i < |chunks| :: 0 < chunks[i] <= BufferSize
    ensures |bars| <= |chunks|
    ensures totalRead == Sum(chunks[..|bars|])
    ensures forall i | 0 <= i < |bars| :: bars[i] == ProgressBar(Sum(chunks[..i + 1]), size)
    ensures forall i | 0 <= i < |bars| - 1 :: !bars[i].Overrun?
    ensures |bars| < |chunks| ==> |bars| > 0 && bars[|bars| - 1].Overrun?
    ensures 0 < size && Sum(chunks) <= size ==> |bars| == |chunks|
  {
    totalRead := 0;
    bars := [];
    var i := 0;
    while i < |chunks|
      invariant 0 <= i <= |chunks| && |bars| == i
      invariant totalRead == Sum(chunks[..i])
      invariant forall j | 0 <= j < i :: bars[j] == ProgressBar(Sum(chunks[..j + 1]), size)
      invariant forall j | 0 <= j < i :: !bars[j].Overrun?
    {
      assert chunks[..i + 1][..i] == chunks[..i];
      totalRead := totalRead + chunks[i];
      var bar := ProgressBar(totalRead, size);
      bars := bars + [bar];
      i := i + 1;
      if bar.Overrun? {
        assert !(0 < size && Sum(chunks) <= size) by {
          if 0 < size && Sum(chunks) <= size {
            DownloadWithinSize(chunks, size, i - 1);
            assert false;
          }
        }
        return;
      }
    }
  }

  // ---------------------------------------------------------------------------
  // Properties
  // ---------------------------------------------------------------------------

  /** All leading v/V go, however many: "vV1.2" is read as "1.2". */
  lemma {:induction false} LeadingVsIgnored(vs: string, s: string)
    requires forall i | 0 <= i < |vs| :: IsV(vs[i])
    ensures TrimLeadingVs(vs + s) == TrimLeadingVs(s)
  {
    if vs != [] {
      assert (vs + s)[1..] == vs[1..] + s;
      LeadingVsIgnored(vs[1..], s);
    } else {
      assert vs + s == s;
    }
  }

  /** Version's order is a strict total order. */
  lemma OlderIsStrictTotalOrder(a: Version, b: Version, c: Version)
    ensures !Older(a, a)
    ensures Older(a, b) ==> !Older(b, a)
    ensures Older(a, b) && Older(b, c) ==> Older(a, c)
    ensures a == b || Older(a, b) || Older(b, a)
  {
  }

  lemma {:induction false} DigitsRoundTrip(n: nat)
    ensures DigitsValue(ShowNumber(n)) == n
  {
    if n >= 10 {
      var s := ShowNumber(n);
      assert s[..|s| - 1] == ShowNumber(n / 10);
      DigitsRoundTrip(n / 10);
    }
  }

  /** Splitting a dot-free prefix followed by t: the prefix joins t's first piece. */
  lemma {:induction false} SplitPrefix(a: string, t: string)
    requires '.' !in a
    ensures SplitOnDots(a + t) == [a + SplitOnDots(t)[0]] + SplitOnDots(t)[1..]
  {
    if a == [] {
      assert a + t == t;
      var parts := SplitOnDots(t);
      assert parts == [parts[0]] + parts[1..];
      assert a + parts[0] == parts[0];
    } else {
      assert (a + t)[0] == a[0];
      assert (a + t)[1..] == a[1..] + t;
      SplitPrefix(a[1..], t);
      assert [a[0]] + (a[1..] + SplitOnDots(t)[0]) == a + SplitOnDots(t)[0];
    }
  }

  /** Splitting undoes joining, for pieces without dots. */
  lemma {:induction false} SplitJoin(parts: seq<string>)
    requires |parts| >= 1
    requires forall i | 0 <= i < |parts| :: '.' !in parts[i]
    ensures SplitOnDots(JoinWithDots(parts)) == parts
  {
    if |parts| == 1 {
      SplitPrefix(parts[0], []);
      assert SplitOnDots([]) == [[]];
      assert parts[0] + [] == parts[0];
      assert parts == [parts[0]];
    } else {
      var rest := JoinWithDots(parts[1..]);
      SplitJoin(parts[1..]);
      var dotted := "." + rest;
      assert JoinWithDots(parts) == parts[0] + dotted;
      assert dotted[0] == '.' && dotted[1..] == rest;
      assert SplitOnDots(dotted) == [[]] + parts[1..];
      SplitPrefix(parts[0], dotted);
      assert parts[0] + [] == parts[0];
      assert parts == [parts[0]] + parts[1..];
    }
  }

  /** Joining undoes splitting. */
  lemma {:induction false} JoinSplit(s: string)
    ensures JoinWithDots(SplitOnDots(s)) == s
  {
    if s != [] {
      var rest := SplitOnDots(s[1..]);
      JoinSplit(s[1..]);
      if s[0] == '.' {
        assert s == "." + s[1..];
      } else if |rest| == 1 {
        assert s == [s[0]] + s[1..];
      } else {
        assert JoinWithDots(rest) == rest[0] + "." + JoinWithDots(rest[1..]);
        assert s == [s[0]] + s[1..];
      }
    }
  }

  lemma ShownNumbersParse(ns: seq<nat>)
    requires forall i | 0 <= i < |ns| :: ns[i] <= MaxComponent
    ensures ParseComponents(ShowNumbers(ns)) == Some(ns)
  {
    var parts := ShowNumbers(ns);
    forall i | 0 <= i < |ns|
      ensures ParseComponent(parts[i]) == Some(ns[i])
    {
      DigitsRoundTrip(ns[i]);
    }
    var r := ParseComponents(parts);
    assert r.Some?;
    assert r.value == ns;
  }

  /** Parsing a printed version gives the version back. */
  lemma VersionRoundTrip(v: Version)
    requires WellFormed(v)
    ensures ParseVersion(ShowVersion(v)) == Some(v)
  {
    var ns := Components(v);
    var parts := ShowNumbers(ns);
    forall i | 0 <= i < |parts|
      ensures '.' !in parts[i]
    {
      assert AllDigits(parts[i]);
    }
    SplitJoin(parts);
    ShownNumbersParse(ns);
  }

  /** A string whose first character is a letter v is no version. */
  lemma LeadingVRejected(s: string)
    requires s != [] && IsV(s[0])
    ensures ParseVersion(s).None?
  {
    var parts := SplitOnDots(s);
    assert !IsDigit(parts[0][0]);
    assert ParseComponent(parts[0]).None?;
  }

  /**
   * For a release tag "v" + r and a running version c, an update is offered
   * exactly when c is older than r.
   */
  lemma UpdateExactlyWhenNewer(remote: Version, current: Version)
    requires WellFormed(remote) && WellFormed(current)
    ensures ShouldUpdate("v" + ShowVersion(remote), ShowVersion(current)) <==> Older(current, remote)
  {
    VersionRoundTrip(remote);
    VersionRoundTrip(current);
    var shown := ShowVersion(remote);
    LeadingVsIgnored("v", shown);
    ParsedUntrimmed(shown);
  }

  /** A string that parses as a version has no leading v to trim. */
  lemma ParsedUntrimmed(s: string)
    ensures ParseVersion(s).Some? ==> TrimLeadingVs(s) == s
  {
    if s != [] && IsV(s[0]) {
      LeadingVRejected(s);
    }
  }

  /** The same version, with or without v prefixes on the tag, is never an update. */
  lemma SameVersionNoUpdate(vs: string, version: string)
    requires forall i | 0 <= i < |vs| :: IsV(vs[i])
    ensures !ShouldUpdate(vs + version, version)
  {
    LeadingVsIgnored(vs, version);
    if TrimLeadingVs(version) != version {
      LeadingVRejected(version);
    }
  }

  /** Two versions never both count as updates of each other. */
  lemma NoMutualUpdate(a: string, b: string)
    requires ShouldUpdate(a, b)
    ensures !ShouldUpdate(b, a)
  {
    ParsedUntrimmed(a);
    ParsedUntrimmed(b);
  }

  /** A reported size of zero or less draws nothing at all. */
  lemma {:induction false} NoBarWithoutSize(chunks: seq<nat>, size: int, i: nat)
    requires size <= 0 && i < |chunks|
    ensures ProgressBar(Sum(chunks[..i + 1]), size) == NoOutput
  {
  }

  lemma {:induction false} PrefixSumBounded(chunks: seq<nat>, i: nat)
    requires i <= |chunks|
    ensures Sum(chunks[..i]) <= Sum(chunks)
    decreases |chunks|
  {
    if i < |chunks| {
      var init := chunks[..|chunks| - 1];
      assert chunks[..i] == init[..i];
      PrefixSumBounded(init, i);
    } else {
      assert chunks[..i] == chunks;
    }
  }

  /** When the reported size is right, every redraw draws a bar and none overruns. */
  lemma DownloadWithinSize(chunks: seq<nat>, size: int, i: nat)
    requires 0 < size && Sum(chunks) <= size && i < |chunks|
    ensures ProgressBar(Sum(chunks[..i + 1]), size).Drawn?
  {
    PrefixSumBounded(chunks, i + 1);
  }

  /** The fill never drops as the download proceeds. */
  lemma FillMonotone(c1: nat, c2: nat, total: int)
    requires 0 < total && c1 <= c2
    ensures Fill(c1, total) <= Fill(c2, total)
  {
    DivMonotone(BarWidth * c1, BarWidth * c2, total);
  }

  lemma DivMonotone(a: int, b: int, d: int)
    requires 0 <= a <= b && 0 < d
    ensures a / d <= b / d
  {
    var q1, q2 := a / d, b / d;
    assert d * q1 <= a && b < d * q2 + d;
    MulBounds(q1 - q2, d);
    assert (q1 - q2) * d == d * q1 - d * q2;
  }

  /** With 0 <= current <= total the fill lies in 0..40. */
  lemma FillWithinBar(current: int, total: int)
    requires 0 < total
    ensures 0 <= current <= total ==> 0 <= Fill(current, total) <= BarWidth
  {
    if 0 <= current <= total {
      DivMonotone(0, BarWidth * current, total);
      DivMonotone(BarWidth * current, BarWidth * total, total);
      DivOfMultiple(BarWidth, total);
    }
  }

  lemma DivOfMultiple(q: nat, d: int)
    requires 0 < d
    ensures q * d / d == q
  {
    var r, m := q * d / d, q * d % d;
    assert (q - r) * d == m && 0 <= m < d;
    MulBounds(q - r, d);
  }

  lemma MulBounds(k: int, d: int)
    requires 0 < d
    ensures k >= 1 ==> k * d >= d
    ensures k <= -1 ==> k * d <= -d
  {
  }

  /** A complete download shows a full bar. */
  lemma FullBarAtTotal(total: int)
    requires total > 0
    ensures ProgressBar(total, total) == Drawn("[" + Repeat('#', BarWidth) + "]")
  {
    assert Fill(total, total) == BarWidth;
    assert Repeat('-', 0) == [];
  }

  // ---------------------------------------------------------------------------
  // The int32 counter of WaitForInput as written
  // ---------------------------------------------------------------------------

  /** Two's-complement 32-bit wrap-around. */
  function Wrap32(x: int): (r: int)
    ensures -0x8000_0000 <= r < 0x8000_0000
  {
    (x + 0x8000_0000) % 0x1_0000_0000 - 0x8000_0000
  }

  /** Wrapping changes a value by a multiple of 2^32, and not at all inside the int range. */
  lemma WrapCongruent(x: int)
    ensures (Wrap32(x) - x) % 0x1_0000_0000 == 0
    ensures -0x8000_0000 <= x < 0x8000_0000 ==> Wrap32(x) == x
  {
    var q := (x + 0x8000_0000) / 0x1_0000_0000;
    assert Wrap32(x) - x == -0x1_0000_0000 * q;
  }

  /** The int elapsed counter after k sleeps, with `elapsed += 100` wrapping at 32 bits. */
  function ElapsedAsWritten(k: nat): int {
    if k == 0 then 0 else Wrap32(ElapsedAsWritten(k - 1) + PollIntervalMs)
  }

  /**
   * The wrapped counter stays a multiple of 4, since 100 and 2^32 both are, and
   * so never exceeds 2147483644.
   */
  lemma {:induction false} ElapsedStaysMultipleOfFour(k: nat)
    ensures ElapsedAsWritten(k) % 4 == 0
    ensures -0x8000_0000 <= ElapsedAsWritten(k) <= 0x7FFF_FFFC
  {
    if k > 0 {
      ElapsedStaysMultipleOfFour(k - 1);
      WrapKeepsMultipleOfFour(ElapsedAsWritten(k - 1) + PollIntervalMs);
    }
  }

  /** Wrapping at 32 bits keeps a multiple of 4 a multiple of 4, and so at most 2147483644. */
  lemma WrapKeepsMultipleOfFour(x: int)
    requires x % 4 == 0
    ensures Wrap32(x) % 4 == 0 && Wrap32(x) <= 0x7FFF_FFFC
  {
    var q := (x + 0x8000_0000) / 0x1_0000_0000;
    var t := x / 4 - 0x4000_0000 * q;
    assert Wrap32(x) == 4 * t;
  }

  /**
   * With a timeout from 2147483645 to Int32.MaxValue the loop as written never
   * times out: after every number of sleeps the guard elapsed < timeoutMs
   * still holds.
   */
  lemma WaitAsWrittenNeverTimesOut(k: nat, timeoutMs: int)
    requires 2147483645 <= timeoutMs <= 0x7FFF_FFFF
    ensures ElapsedAsWritten(k) < timeoutMs
  {
    ElapsedStaysMultipleOfFour(k);
  }

  /** The step that wraps: 2147483600 + 100 becomes -2147483596. */
  lemma ElapsedWrapStep()
    ensures Wrap32(2147483600 + PollIntervalMs) == -2147483596 < 2147483647
  {
  }

  /** Below the wrap the counter is exact, so the unbounded WaitForInput matches the code for timeouts up to 2147483600. */
  lemma {:induction false} ElapsedExactBelowWrap(k: nat)
    requires PollIntervalMs * k <= 0x7FFF_FFFF
    ensures ElapsedAsWritten(k) == PollIntervalMs * k
  {
    if k > 0 {
      ElapsedExactBelowWrap(k - 1);
    }
  }
}
