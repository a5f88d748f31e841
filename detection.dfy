/** Init-system detection: `check_init_system` (uservice.c). The five
    `access()` probes are replaced by the booleans of a `Markers` record. */
module Detection {
  import opened Wrappers
  import opened InitSystems

  /** Which marker files exist. */
  datatype Markers = Markers(
    systemctl: bool,  // /usr/bin/systemctl
    systemd: bool,    // /usr/lib/systemd/systemd
    journald: bool,   // /usr/lib/systemd/systemd-journald
    rcService: bool,  // /sbin/rc-service
    rcUpdate: bool    // /sbin/rc-update
  )

  /** +1 for a present marker, -1 for an absent load-bearing one. */
  function Vote(present: bool): int
  {
    if present then 1 else -1
  }

  /** Confidence in systemd: the two load-bearing markers vote +1/-1, the
      journal daemon only ever adds. */
  function SystemdScore(m: Markers): (score: int)
    ensures -2 <= score <= 3
    ensures score > 0 ==> m.systemctl || m.systemd
  {
    Vote(m.systemctl) + Vote(m.systemd) + (if m.journald then 1 else 0)
  }

  /** Confidence in OpenRC: both binaries vote +1/-1. */
  function OpenRCScore(m: Markers): (score: int)
    ensures -2 <= score <= 2
    ensures score > 0 <==> m.rcService && m.rcUpdate
  {
    Vote(m.rcService) + Vote(m.rcUpdate)
  }

  /** `any_init_system_found` after the probes. */
  predicate AnyFound(m: Markers)
    ensures !AnyFound(m) <==> SystemdScore(m) == -2 && OpenRCScore(m) == -2
  {
    m.systemctl || m.systemd || m.journald || m.rcService || m.rcUpdate
  }

  /** `init_system_confidence_levels` after the probes, indexed by enumerator. */
  function Levels(m: Markers): (levels: seq<int>)
    ensures |levels| == SupportedCount
    ensures levels[Ordinal(Systemd)] == SystemdScore(m) && levels[Ordinal(OpenRC)] == OpenRCScore(m)
  {
    [SystemdScore(m), OpenRCScore(m)]
  }

  /** The score of a supported system. */
  function Score(m: Markers, s: InitSystem): int
    requires IsSupported(s)
  {
    Levels(m)[Ordinal(s)]
  }

  /** The running best score of the selection scan: 0 before any candidate. */
  function BestScore(levels: seq<int>, best: Option<nat>): int
    requires best.Some? ==> best.value < |levels|
  {
    if best.Some? then levels[best.value] else 0
  }

  /** The index chosen after scanning the first `n` levels, starting from
      score 0 and replacing the running best only on a strictly greater score.
      The result is the FIRST index holding the maximum, and only when that
      maximum is strictly positive. */
  function BestOf(levels: seq<int>, n: nat): (best: Option<nat>)
    requires n <= |levels|
    ensures best.Some? ==> best.value < n && levels[best.value] > 0
    ensures best.Some? ==> forall j :: 0 <= j < n ==> levels[j] <= levels[best.value]
    ensures best.Some? ==> forall j :: 0 <= j < best.value ==> levels[j] < levels[best.value]
    ensures best.None? <==> forall j :: 0 <= j < n ==> levels[j] <= 0
  {
    if n == 0 then None
    else
      var prev := BestOf(levels, n - 1);
      if BestScore(levels, prev) < levels[n - 1] then Some(n - 1) else prev
  }

  /** What `check_init_system` leaves in `init_system`; `None` is its fatal
      exit. */
  function Detect(m: Markers): (r: Option<InitSystem>)
    ensures r.Some? ==> IsSupported(r.value)
  {
    if !AnyFound(m) then None
    else
      match BestOf(Levels(m), SupportedCount)
      case None => None
      case Some(i) => Some(FromOrdinal(i))
  }

  /** The five `access()` probes of `check_init_system`, applied in place to
      a zeroed `init_system_confidence_levels`: they leave each system's
      score in its entry and report whether any marker was found. */
  method Probe(m: Markers, levels: array<int>) returns (anyFound: bool)
    requires levels.Length == SupportedCount && levels[0] == 0 && levels[1] == 0
    modifies levels
    ensures levels[Ordinal(Systemd)] == SystemdScore(m) && levels[Ordinal(OpenRC)] == OpenRCScore(m)
    ensures anyFound == AnyFound(m)
  {
    anyFound := false;

    if m.systemctl {
      levels[0] := levels[0] + 1;
      anyFound := true;
    } else {
      levels[0] := levels[0] - 1;
    }
    assert levels[0] == Vote(m.systemctl) && levels[1] == 0 && anyFound == m.systemctl;
    if m.systemd {
      levels[0] := levels[0] + 1;
      anyFound := true;
    } else {
      levels[0] := levels[0] - 1;
    }
    assert levels[0] == Vote(m.systemctl) + Vote(m.systemd) && levels[1] == 0;
    assert anyFound == (m.systemctl || m.systemd);
    if m.journald {
      levels[0] := levels[0] + 1;
      anyFound := true;
    }
    assert levels[0] == SystemdScore(m) && levels[1] == 0;
    assert anyFound == (m.systemctl || m.systemd || m.journald);
    if m.rcService {
      levels[1] := levels[1] + 1;
      anyFound := true;
    } else {
      levels[1] := levels[1] - 1;
    }
    assert levels[0] == SystemdScore(m) && levels[1] == Vote(m.rcService);
    assert anyFound == (m.systemctl || m.systemd || m.journald || m.rcService);
    if m.rcUpdate {
      levels[1] := levels[1] + 1;
      anyFound := true;
    } else {
      levels[1] := levels[1] - 1;
    }
  }

  /** `check_init_system` as written: scores accumulate in an array updated in
      place, then an index scan picks the best. */
  method CheckInitSystem(m: Markers) returns (detected: Option<InitSystem>)
    ensures detected == Detect(m)
  {
    var levels := new int[SupportedCount];
    levels[0], levels[1] := 0, 0;
    var anyFound := Probe(m, levels);

    if !anyFound {
      return None;
    }
    var best: nat := Ordinal(UnsupportedInitSystem);
    var bestScore := 0;
    var i := 0;
    while i < SupportedCount
      invariant 0 <= i <= SupportedCount
      invariant levels[0] == SystemdScore(m) && levels[1] == OpenRCScore(m)
      invariant BestOf(Levels(m), i).None? ==> best == Ordinal(UnsupportedInitSystem)
      invariant BestOf(Levels(m), i).Some? ==> best == BestOf(Levels(m), i).value
      invariant bestScore == BestScore(Levels(m), BestOf(Levels(m), i))
    {
      assert levels[i] == Levels(m)[i];
      if bestScore < levels[i] {
        bestScore := levels[i];
        best := i;
      }
      i := i + 1;
    }
    if best != Ordinal(UnsupportedInitSystem) {
      detected := Some(FromOrdinal(best));
    } else {
      detected := None;
    }
  }

  /** Detection fails exactly when no system scores above zero; the
      `any_init_system_found` guard never decides the outcome on its own. */
  lemma DetectFailsIffNoPositiveScore(m: Markers)
    ensures Detect(m).None? <==> SystemdScore(m) <= 0 && OpenRCScore(m) <= 0
  {
    var levels := Levels(m);
    if SystemdScore(m) > 0 || OpenRCScore(m) > 0 {
      assert AnyFound(m);
      assert levels[0] > 0 || levels[1] > 0;
    } else {
      assert forall j :: 0 <= j < SupportedCount ==> levels[j] <= 0;
    }
  }

  /** With no marker present, detection exits fatally. */
  lemma NoMarkerFails(m: Markers)
    requires !AnyFound(m)
    ensures Detect(m) == None
  {
  }

  /** A detected system scores strictly above zero and at least as high as
      every other supported system. */
  lemma WinnerIsBest(m: Markers, other: InitSystem)
    requires Detect(m).Some? && IsSupported(other)
    ensures Score(m, Detect(m).value) > 0
    ensures Score(m, other) <= Score(m, Detect(m).value)
  {
    var i := BestOf(Levels(m), SupportedCount).value;
    assert Ordinal(Detect(m).value) == i;
    assert Ordinal(other) < SupportedCount;
  }

  /** Equal positive scores go to systemd: the scan runs in index order with a
      strict comparison. */
  lemma TieGoesToSystemd(m: Markers)
    requires SystemdScore(m) == OpenRCScore(m) > 0
    ensures Detect(m) == Some(Systemd)
  {
    assert AnyFound(m);
    var levels := Levels(m);
    assert BestOf(levels, 1) == Some(0);
    assert BestOf(levels, SupportedCount) == Some(0);
  }

  /** OpenRC wins exactly when it scores positive and strictly above systemd. */
  lemma OpenRCWinsIffStrictlyAhead(m: Markers)
    ensures Detect(m) == Some(OpenRC) <==> OpenRCScore(m) > 0 && OpenRCScore(m) > SystemdScore(m)
  {
    DetectFailsIffNoPositiveScore(m);
    var levels := Levels(m);
    var best := BestOf(levels, SupportedCount);
    if Detect(m) == Some(OpenRC) {
      assert best == Some(1);
      assert levels[0] < levels[1];
    }
    if OpenRCScore(m) > 0 && OpenRCScore(m) > SystemdScore(m) {
      assert best.Some?;
      assert levels[best.value] >= levels[1];
      assert best.value == 1;
    }
  }

  /** Sample configurations: all systemd markers alone give systemd, both
      OpenRC binaries alone give OpenRC, and the journal daemon alone (a
      marker found, but systemd at -1) is fatal, as is `systemctl` alone
      (systemd at 0, OpenRC at -2: the least negative score does not win). */
  lemma SampleDetections()
    ensures Detect(Markers(true, true, true, false, false)) == Some(Systemd)
    ensures Detect(Markers(false, false, false, true, true)) == Some(OpenRC)
    ensures Detect(Markers(false, false, true, false, false)) == None
    ensures Detect(Markers(true, false, false, false, false)) == None
  {
    DetectFailsIffNoPositiveScore(Markers(true, false, false, false, false));
    OpenRCWinsIffStrictlyAhead(Markers(true, true, true, false, false));
    DetectFailsIffNoPositiveScore(Markers(true, true, true, false, false));
    OpenRCWinsIffStrictlyAhead(Markers(false, false, false, true, true));
    DetectFailsIffNoPositiveScore(Markers(false, false, true, false, false));
  }
}
