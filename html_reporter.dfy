/**
 * The result sink and report aggregation of the suite: the class
 * `HTMLReportGenerator` of utils/html_reporter.py.
 *
 * The generator holds the list of recorded results. The report it renders
 * is modelled as an abstract structure (summary, browser cards, table rows)
 * rather than as HTML text. Durations are reals and are only ever compared
 * with zero; pass rates are exact reals.
 */
module HtmlReporter {
  import opened Wrappers
  import opened Text

  // ---------------------------------------------------------------------
  // Records
  // ---------------------------------------------------------------------

  /** One dictionary appended by `add_test_result`. */
  datatype TestResult = TestResult(
    name: string,
    status: string,
    duration: real,
    details: string,
    errorMessage: string,
    screenshotPath: string,
    timestamp: string,
    browser: string)

  /**
   * The record `add_test_result` stores: the status upper-cased, the browser
   * lower-cased ("" when none is given), the timestamp as read from the clock.
   */
  function NewResult(testName: string, status: string, duration: real, details: string,
                     errorMessage: string, screenshotPath: string, browser: string,
                     timestamp: string): (r: TestResult)
    ensures |r.status| == |status|
    ensures forall i :: 0 <= i < |r.status| ==>
              !IsLowerAscii(r.status[i]) && LowerChar(r.status[i]) == LowerChar(status[i])
    ensures |r.browser| == |browser|
    ensures forall i :: 0 <= i < |r.browser| ==>
              !IsUpperAscii(r.browser[i]) && UpperChar(r.browser[i]) == UpperChar(browser[i])
    ensures r.name == testName && r.duration == duration && r.details == details
    ensures r.errorMessage == errorMessage && r.screenshotPath == screenshotPath
    ensures r.timestamp == timestamp
  {
    TestResult(testName, Upper(status), duration, details, errorMessage, screenshotPath,
               timestamp, if browser != "" then Lower(browser) else "")
  }

  // ---------------------------------------------------------------------
  // Icons
  // ---------------------------------------------------------------------

  const UnknownStatusIcon := "\U{2753}"
  const StatusIcons: map<string, string> :=
    map["PASSED" := "\U{2705}", "FAILED" := "\U{274C}",
        "SKIPPED" := "\U{26A0}\U{FE0F}", "ERROR" := "\U{1F4A5}"]

  const UnknownBrowserIcon := "\U{1F310}"
  const BrowserIcons: map<string, string> :=
    map["chrome" := "\U{1F7E1}", "firefox" := "\U{1F7E0}", "edge" := "\U{1F535}"]

  /** `_get_status_icon`: the question mark exactly for statuses outside the table. */
  function StatusIcon(status: string): (icon: string)
    ensures icon == UnknownStatusIcon <==> status !in StatusIcons
    ensures status in StatusIcons ==> icon == StatusIcons[status]
  {
    if status in StatusIcons then StatusIcons[status] else UnknownStatusIcon
  }

  /** `_get_browser_icon`: looked up on the lower-cased tag, the globe for unknown ones. */
  function BrowserIcon(browser: string): (icon: string)
    ensures icon == UnknownBrowserIcon <==> Lower(browser) !in BrowserIcons
    ensures Lower(browser) in BrowserIcons ==> icon == BrowserIcons[Lower(browser)]
  {
    var key := Lower(browser);
    if key in BrowserIcons then BrowserIcons[key] else UnknownBrowserIcon
  }

  /** Distinct known statuses get distinct icons. */
  lemma StatusIconsDistinct(a: string, b: string)
    requires a in StatusIcons && b in StatusIcons && a != b
    ensures StatusIcon(a) != StatusIcon(b)
  {
  }

  /** The browser lookup ignores case: "Chrome", "CHROME" and "chrome" share an icon. */
  lemma BrowserIconIgnoresCase(browser: string)
    ensures BrowserIcon(Upper(browser)) == BrowserIcon(browser)
    ensures BrowserIcon(Lower(browser)) == BrowserIcon(browser)
  {
    var u := Upper(browser);
    assert Lower(u) == Lower(browser) by {
      assert forall i :: 0 <= i < |u| ==> Lower(u)[i] == Lower(browser)[i];
    }
    LowerIdempotent(browser);
  }

  // ---------------------------------------------------------------------
  // Summary: global counts and pass rate
  // ---------------------------------------------------------------------

  const Passed := "PASSED"
  const Failed := "FAILED"
  const Skipped := "SKIPPED"

  /** `sum(1 for result in results if result['status'] == status)`. */
  function CountStatus(rs: seq<TestResult>, status: string): (n: nat)
    ensures n <= |rs|
    ensures n == 0 <==> NoneHas(rs, status)
    ensures n == |rs| <==> AllHave(rs, status)
  {
    if rs == [] then 0
    else CountStatus(rs[..|rs| - 1], status) + (if rs[|rs| - 1].status == status then 1 else 0)
  }

  /** No record carries `status`. */
  predicate NoneHas(rs: seq<TestResult>, status: string)
  {
    forall i :: 0 <= i < |rs| ==> rs[i].status != status
  }

  /** Every record carries `status`. */
  predicate AllHave(rs: seq<TestResult>, status: string)
  {
    forall i :: 0 <= i < |rs| ==> rs[i].status == status
  }

  /** The statuses of the records, in recording order. */
  function Statuses(rs: seq<TestResult>): (ss: seq<string>)
    ensures |ss| == |rs| && forall i :: 0 <= i < |rs| ==> ss[i] == rs[i].status
  {
    seq(|rs|, i requires 0 <= i < |rs| => rs[i].status)
  }

  /** A status count is the number of occurrences of that status. */
  lemma {:induction false} CountStatusIsOccurrences(rs: seq<TestResult>, status: string)
    ensures CountStatus(rs, status) == multiset(Statuses(rs))[status]
  {
    if rs != [] {
      var p := rs[..|rs| - 1];
      CountStatusIsOccurrences(p, status);
      assert Statuses(rs) == Statuses(p) + [rs[|rs| - 1].status];
    }
  }

  /** `passed / total * 100` when there is anything to divide by, 0 otherwise. */
  function PassRate(passed: int, total: int): (rate: real)
    ensures total <= 0 ==> rate == 0.0
    ensures total > 0 ==> rate * (total as real) == (passed as real) * 100.0
    ensures 0 <= passed <= total ==> 0.0 <= rate <= 100.0
  {
    if total > 0 then (passed as real) / (total as real) * 100.0 else 0.0
  }

  /** The summary cards: total, passed, failed, skipped and the pass rate. */
  datatype Summary = Summary(total: nat, passed: nat, failed: nat, skipped: nat, passRate: real)

  /** The pass rate of a summary is its passed share of the total, in percent, and 0 for an empty run. */
  predicate RateOfSummary(s: Summary)
  {
    && (s.total == 0 ==> s.passRate == 0.0)
    && (s.total > 0 ==> s.passRate * (s.total as real) == (s.passed as real) * 100.0)
    && 0.0 <= s.passRate <= 100.0
  }

  lemma SummaryRate(s: Summary)
    requires s.passed <= s.total && s.passRate == PassRate(s.passed, s.total)
    ensures RateOfSummary(s)
  {
    var rate := PassRate(s.passed, s.total);
  }

  /** The summary statistics computed at the start of `generate_html_report`. */
  function Summarize(rs: seq<TestResult>): (s: Summary)
    ensures s.total == |rs|
    ensures s.passed == CountStatus(rs, Passed) && s.failed == CountStatus(rs, Failed)
    ensures s.skipped == CountStatus(rs, Skipped)
    ensures s.passed + s.failed + s.skipped <= s.total
    ensures RateOfSummary(s)
  {
    var passed := CountStatus(rs, Passed);
    var failed := CountStatus(rs, Failed);
    var skipped := CountStatus(rs, Skipped);
    CountsWithinTotal(rs);
    var s := Summary(|rs|, passed, failed, skipped, PassRate(passed, |rs|));
    SummaryRate(s);
    s
  }

  lemma StatusNamesDistinct()
    ensures Passed != Failed && Passed != Skipped && Failed != Skipped
  {
    assert Passed[0] != Failed[0] && Passed[0] != Skipped[0] && Failed[0] != Skipped[0];
  }

  /** Whether a status is one of the three the summary counts. */
  predicate IsCounted(status: string)
  {
    status == Passed || status == Failed || status == Skipped
  }

  /**
   * The three counts never exceed the total, and they add up to it exactly
   * when every record has a counted status ("ERROR" and any other status
   * count toward the total only).
   */
  lemma {:induction false} CountsWithinTotal(rs: seq<TestResult>)
    ensures CountStatus(rs, Passed) + CountStatus(rs, Failed) + CountStatus(rs, Skipped) <= |rs|
    ensures CountStatus(rs, Passed) + CountStatus(rs, Failed) + CountStatus(rs, Skipped) == |rs|
            <==> forall i :: 0 <= i < |rs| ==> IsCounted(rs[i].status)
  {
    if rs != [] {
      var p := rs[..|rs| - 1];
      var r := rs[|rs| - 1];
      CountsWithinTotal(p);
      assert forall i :: 0 <= i < |p| ==> p[i] == rs[i];
    }
  }

  // ---------------------------------------------------------------------
  // Browser statistics
  // ---------------------------------------------------------------------

  /** The counter dictionary `{'total', 'passed', 'failed', 'skipped'}` of one browser. */
  datatype Counters = Counters(total: int, passed: int, failed: int, skipped: int)

  const NoCounters := Counters(0, 0, 0, 0)

  function Add(a: Counters, b: Counters): Counters
  {
    Counters(a.total + b.total, a.passed + b.passed, a.failed + b.failed, a.skipped + b.skipped)
  }

  lemma AddAssociative(a: Counters, b: Counters, c: Counters)
    ensures Add(Add(a, b), c) == Add(a, Add(b, c))
  {
  }

  /** What one record adds to its browser's counters. */
  function Contribution(r: TestResult): Counters
  {
    Counters(1, if r.status == Passed then 1 else 0, if r.status == Failed then 1 else 0,
             if r.status == Skipped then 1 else 0)
  }

  /** The counters of one browser tag over a list of records. */
  function Tally(rs: seq<TestResult>, browser: string): Counters
  {
    if rs == [] then NoCounters
    else
      var c := Tally(rs[..|rs| - 1], browser);
      if rs[|rs| - 1].browser == browser then Add(c, Contribution(rs[|rs| - 1])) else c
  }

  lemma TallySnoc(p: seq<TestResult>, r: TestResult, browser: string)
    ensures Tally(p + [r], browser)
            == if r.browser == browser then Add(Tally(p, browser), Contribution(r)) else Tally(p, browser)
  {
    assert (p + [r])[..|p|] == p;
  }

  /** The whole list's counters: its length and the three status counts. */
  function Totals(rs: seq<TestResult>): Counters
  {
    Counters(|rs|, CountStatus(rs, Passed), CountStatus(rs, Failed), CountStatus(rs, Skipped))
  }

  lemma TotalsSnoc(p: seq<TestResult>, r: TestResult)
    ensures Totals(p + [r]) == Add(Totals(p), Contribution(r))
  {
    assert (p + [r])[..|p|] == p;
    StatusNamesDistinct();
  }

  /** The browser tags of the records, in recording order. */
  function Tags(rs: seq<TestResult>): (tags: seq<string>)
    ensures |tags| == |rs| && forall i :: 0 <= i < |rs| ==> tags[i] == rs[i].browser
  {
    seq(|rs|, i requires 0 <= i < |rs| => rs[i].browser)
  }

  lemma TagsSnoc(p: seq<TestResult>, r: TestResult)
    ensures Tags(p + [r]) == Tags(p) + [r.browser]
  {
  }

  /** The distinct elements of `tags`, each where it first occurs. */
  function FirstSeen(tags: seq<string>): seq<string>
  {
    if tags == [] then []
    else
      var keys := FirstSeen(tags[..|tags| - 1]);
      var t := tags[|tags| - 1];
      if t in keys then keys else keys + [t]
  }

  /** The first-seen keys are the distinct tags, each listed once. */
  lemma {:induction false} FirstSeenKeys(tags: seq<string>)
    ensures forall t :: t in FirstSeen(tags) <==> t in tags
    ensures NoDuplicates(FirstSeen(tags))
  {
    if tags != [] {
      var init := tags[..|tags| - 1];
      assert tags == init + [tags[|tags| - 1]];
      FirstSeenKeys(init);
    }
  }

  lemma FirstSeenSnoc(tags: seq<string>, t: string)
    ensures FirstSeen(tags + [t]) == if t in tags then FirstSeen(tags) else FirstSeen(tags) + [t]
  {
    assert (tags + [t])[..|tags|] == tags;
    FirstSeenKeys(tags);
  }

  /** The position of the first occurrence of `t`. */
  function FirstIndex(tags: seq<string>, t: string): (p: nat)
    requires t in tags
    ensures p < |tags| && tags[p] == t && t !in tags[..p]
  {
    var init := tags[..|tags| - 1];
    assert tags == init + [tags[|tags| - 1]];
    if t in init then FirstIndex(init, t) else |tags| - 1
  }

  /** Both occur in `tags`, and `a` occurs first. */
  predicate TagBefore(tags: seq<string>, a: string, b: string)
  {
    a in tags && b in tags && FirstIndex(tags, a) < FirstIndex(tags, b)
  }

  /** The first-seen keys are in the order of their first occurrences. */
  lemma {:induction false} FirstSeenOrder(tags: seq<string>)
    ensures forall i, j :: 0 <= i < j < |FirstSeen(tags)| ==>
              TagBefore(tags, FirstSeen(tags)[i], FirstSeen(tags)[j])
  {
    if tags != [] {
      var init := tags[..|tags| - 1];
      var t := tags[|tags| - 1];
      assert tags == init + [t];
      FirstSeenOrder(init);
      FirstSeenSnoc(init, t);
      FirstSeenKeys(init);
      var keys0 := FirstSeen(init);
      var keys := FirstSeen(tags);
      forall k | k in init
        ensures FirstIndex(tags, k) == FirstIndex(init, k) < |init|
      {
      }
      forall i, j | 0 <= i < j < |keys|
        ensures TagBefore(tags, keys[i], keys[j])
      {
        assert keys[i] == keys0[i];
        if j < |keys0| {
          assert keys[j] == keys0[j];
          assert TagBefore(init, keys0[i], keys0[j]);
        } else {
          assert keys[j] == t && t !in init;
        }
      }
    }
  }

  /**
   * A Python dictionary from browser tag to counters: its keys in insertion
   * order, and the mapping itself.
   */
  datatype BrowserStats = BrowserStats(order: seq<string>, counters: map<string, Counters>)

  /** The dictionary invariant: the order lists each key once, and only keys. */
  predicate WellFormed(stats: BrowserStats)
  {
    && NoDuplicates(stats.order)
    && (forall b :: b in stats.order ==> b in stats.counters)
    && (forall b :: b in stats.counters ==> b in stats.order)
  }

  /** The dictionary after one iteration of the counting loop, over `r`. */
  function Record(stats: BrowserStats, r: TestResult): BrowserStats
  {
    var b := r.browser;
    var c := if b in stats.counters then stats.counters[b] else NoCounters;
    BrowserStats(if b in stats.counters then stats.order else stats.order + [b],
                 stats.counters[b := Add(c, Contribution(r))])
  }

  /** What `_get_browser_statistics` returns: the counting loop run over the whole list. */
  function StatsOf(rs: seq<TestResult>): BrowserStats
  {
    if rs == [] then BrowserStats([], map[])
    else Record(StatsOf(rs[..|rs| - 1]), rs[|rs| - 1])
  }

  lemma StatsSnoc(p: seq<TestResult>, r: TestResult)
    ensures StatsOf(p + [r]) == Record(StatsOf(p), r)
  {
    assert (p + [r])[..|p|] == p;
  }

  /** A tag that does not occur has all-zero counters. */
  lemma {:induction false} TallyAbsent(rs: seq<TestResult>, browser: string)
    requires browser !in Tags(rs)
    ensures Tally(rs, browser) == NoCounters
  {
    if rs != [] {
      var p := rs[..|rs| - 1];
      assert rs == p + [rs[|rs| - 1]];
      TagsSnoc(p, rs[|rs| - 1]);
      TallyAbsent(p, browser);
    }
  }

  /** The keys are the tags that occur, in the order they are first seen. */
  lemma {:induction false} StatsOrder(rs: seq<TestResult>)
    ensures StatsOf(rs).order == FirstSeen(Tags(rs))
    ensures forall b :: b in StatsOf(rs).counters <==> b in Tags(rs)
  {
    if rs != [] {
      var p := rs[..|rs| - 1];
      var r := rs[|rs| - 1];
      assert rs == p + [r];
      StatsOrder(p);
      StatsSnoc(p, r);
      TagsSnoc(p, r);
      FirstSeenSnoc(Tags(p), r.browser);
    }
  }

  /** Each key is mapped to the counters of its tag. */
  lemma {:induction false} StatsTally(rs: seq<TestResult>, b: string)
    requires b in StatsOf(rs).counters
    ensures StatsOf(rs).counters[b] == Tally(rs, b)
  {
    var p := rs[..|rs| - 1];
    var r := rs[|rs| - 1];
    assert rs == p + [r];
    StatsSnoc(p, r);
    TallySnoc(p, r, b);
    if b in StatsOf(p).counters {
      StatsTally(p, b);
    } else {
      StatsOrder(p);
      TallyAbsent(p, b);
    }
  }

  /**
   * The dictionary the loop builds: its keys are the tags that occur, in
   * the order they are first seen, each mapped to that tag's counters.
   */
  lemma StatsKeys(rs: seq<TestResult>)
    ensures StatsOf(rs).order == FirstSeen(Tags(rs))
    ensures forall b :: b in StatsOf(rs).counters <==> b in Tags(rs)
    ensures forall b :: b in StatsOf(rs).counters ==> StatsOf(rs).counters[b] == Tally(rs, b)
    ensures WellFormed(StatsOf(rs))
  {
    StatsOrder(rs);
    FirstSeenKeys(Tags(rs));
    forall b | b in StatsOf(rs).counters
      ensures StatsOf(rs).counters[b] == Tally(rs, b)
    {
      StatsTally(rs, b);
    }
  }

  /** Each browser's total is the number of records carrying that tag. */
  lemma {:induction false} TallyTotalIsOccurrences(rs: seq<TestResult>, browser: string)
    ensures Tally(rs, browser).total == multiset(Tags(rs))[browser]
  {
    if rs != [] {
      var p := rs[..|rs| - 1];
      var r := rs[|rs| - 1];
      assert rs == p + [r];
      TallyTotalIsOccurrences(p, browser);
      TallySnoc(p, r, browser);
      TagsSnoc(p, r);
      assert multiset(Tags(rs)) == multiset(Tags(p)) + multiset{r.browser};
    }
  }

  /** Within each browser, as globally, the three counts stay within the total. */
  lemma {:induction false} TallyBounds(rs: seq<TestResult>, browser: string)
    ensures var c := Tally(rs, browser);
            0 <= c.passed && 0 <= c.failed && 0 <= c.skipped
            && c.passed + c.failed + c.skipped <= c.total
  {
    if rs != [] {
      var p := rs[..|rs| - 1];
      var r := rs[|rs| - 1];
      assert rs == p + [r];
      TallyBounds(p, browser);
      TallySnoc(p, r, browser);
      StatusNamesDistinct();
    }
  }

  /** Componentwise sum of the counters of `keys`. */
  function SumCounters(keys: seq<string>, counters: map<string, Counters>): Counters
    requires forall k :: k in keys ==> k in counters
  {
    if keys == [] then NoCounters
    else Add(SumCounters(keys[..|keys| - 1], counters), counters[keys[|keys| - 1]])
  }

  /** Sum of the tallies of `keys`. */
  function SumTally(keys: seq<string>, rs: seq<TestResult>): Counters
  {
    if keys == [] then NoCounters
    else Add(SumTally(keys[..|keys| - 1], rs), Tally(rs, keys[|keys| - 1]))
  }

  /** A record whose tag is not among `keys` leaves their sum unchanged. */
  lemma {:induction false} SumTallySnocOther(keys: seq<string>, p: seq<TestResult>, r: TestResult)
    requires r.browser !in keys
    ensures SumTally(keys, p + [r]) == SumTally(keys, p)
  {
    if keys != [] {
      var ks := keys[..|keys| - 1];
      var k := keys[|keys| - 1];
      assert keys == ks + [k];
      SumTallySnocOther(ks, p, r);
      TallySnoc(p, r, k);
    }
  }

  /** A record whose tag is among `keys` (once) adds its contribution to their sum. */
  lemma {:induction false} SumTallySnocOwn(keys: seq<string>, p: seq<TestResult>, r: TestResult)
    requires NoDuplicates(keys) && r.browser in keys
    ensures SumTally(keys, p + [r]) == Add(SumTally(keys, p), Contribution(r))
  {
    var ks := keys[..|keys| - 1];
    var k := keys[|keys| - 1];
    assert keys == ks + [k];
    TallySnoc(p, r, k);
    if k == r.browser {
      assert k !in ks;
      SumTallySnocOther(ks, p, r);
      AddAssociative(SumTally(ks, p), Tally(p, k), Contribution(r));
    } else {
      assert NoDuplicates(ks);
      SumTallySnocOwn(ks, p, r);
      AddAssociative(SumTally(ks, p), Contribution(r), Tally(p, k));
      AddAssociative(SumTally(ks, p), Tally(p, k), Contribution(r));
      assert Add(Contribution(r), Tally(p, k)) == Add(Tally(p, k), Contribution(r));
    }
  }

  lemma {:induction false} SumCountersIsSumTally(keys: seq<string>, counters: map<string, Counters>,
                                                  rs: seq<TestResult>)
    requires forall k :: k in keys ==> k in counters && counters[k] == Tally(rs, k)
    ensures SumCounters(keys, counters) == SumTally(keys, rs)
  {
    if keys != [] {
      var ks := keys[..|keys| - 1];
      assert keys == ks + [keys[|keys| - 1]];
      SumCountersIsSumTally(ks, counters, rs);
    }
  }

  /**
   * The per-browser counters partition the global ones: summed over all
   * keys, the totals give the length of the list and the passed, failed and
   * skipped counters give the global counts.
   */
  lemma BrowserStatsPartitionTotals(rs: seq<TestResult>)
    ensures WellFormed(StatsOf(rs))
    ensures SumCounters(StatsOf(rs).order, StatsOf(rs).counters) == Totals(rs)
  {
    StatsKeys(rs);
    PartitionByTally(rs);
    SumCountersIsSumTally(StatsOf(rs).order, StatsOf(rs).counters, rs);
  }

  lemma {:induction false} PartitionByTally(rs: seq<TestResult>)
    ensures SumTally(FirstSeen(Tags(rs)), rs) == Totals(rs)
  {
    if rs != [] {
      var p := rs[..|rs| - 1];
      var r := rs[|rs| - 1];
      assert rs == p + [r];
      PartitionByTally(p);
      var keys0 := FirstSeen(Tags(p));
      assert Totals(rs) == Add(Totals(p), Contribution(r)) by {
        TotalsSnoc(p, r);
      }
      FirstSeenKeys(Tags(p));
      assert FirstSeen(Tags(rs)) == if r.browser in keys0 then keys0 else keys0 + [r.browser] by {
        TagsSnoc(p, r);
        FirstSeenSnoc(Tags(p), r.browser);
      }
      if r.browser in keys0 {
        SumTallySnocOwn(keys0, p, r);
      } else {
        assert SumTally(keys0 + [r.browser], rs) == Add(SumTally(keys0, rs), Tally(rs, r.browser)) by {
          assert (keys0 + [r.browser])[..|keys0|] == keys0;
        }
        SumTallySnocOther(keys0, p, r);
        assert Tally(rs, r.browser) == Contribution(r) by {
          TallyAbsent(p, r.browser);
          TallySnoc(p, r, r.browser);
        }
      }
    }
  }

  lemma StatsPrefix(rs: seq<TestResult>, i: nat)
    requires i < |rs|
    ensures StatsOf(rs[..i + 1]) == Record(StatsOf(rs[..i]), rs[i])
  {
    assert rs[..i + 1][..i] == rs[..i];
  }

  /**
   * The body of the counting loop: a tag seen for the first time gets zero
   * counters (and its place in the key order), then its total and the
   * counter of the record's status, if any, go up by one.
   */
  method CountResult(stats0: BrowserStats, r: TestResult) returns (stats: BrowserStats)
    ensures stats == Record(stats0, r)
  {
    stats := stats0;
    var browser := r.browser;
    if browser !in stats.counters {
      stats := BrowserStats(stats.order + [browser], stats.counters[browser := NoCounters]);
    }
    var c := stats.counters[browser];
    c := c.(total := c.total + 1);
    if r.status == Passed {
      c := c.(passed := c.passed + 1);
    } else if r.status == Failed {
      c := c.(failed := c.failed + 1);
    } else if r.status == Skipped {
      c := c.(skipped := c.skipped + 1);
    }
    stats := stats.(counters := stats.counters[browser := c]);
    StatusNamesDistinct();
  }

  /** `_get_browser_statistics`: one pass over the records, counting per browser. */
  method BrowserStatistics(rs: seq<TestResult>) returns (stats: BrowserStats)
    ensures stats == StatsOf(rs)
  {
    stats := BrowserStats([], map[]);
    for i := 0 to |rs|
      invariant stats == StatsOf(rs[..i])
    {
      StatsPrefix(rs, i);
      stats := CountResult(stats, rs[i]);
    }
    assert rs[..|rs|] == rs;
  }

  // ---------------------------------------------------------------------
  // Browser cards
  // ---------------------------------------------------------------------

  const UnknownTag := "unknown"

  /** One browser card: icon, total, passed, failed and the pass rate. */
  datatype Card = Card(browser: string, icon: string, total: int, passed: int, failed: int, passRate: real)

  /** The card section: absent for an empty dictionary, otherwise a (possibly empty) list of cards. */
  datatype CardSection = NoSection | Section(cards: seq<Card>)

  function CardFor(browser: string, c: Counters): Card
  {
    Card(browser, BrowserIcon(browser), c.total, c.passed, c.failed, PassRate(c.passed, c.total))
  }

  /** One card per key except "unknown", in key order. */
  function CardsOf(keys: seq<string>, counters: map<string, Counters>): seq<Card>
    requires forall k :: k in keys ==> k in counters
  {
    if keys == [] then []
    else
      var cards := CardsOf(keys[..|keys| - 1], counters);
      var b := keys[|keys| - 1];
      if b == UnknownTag then cards else cards + [CardFor(b, counters[b])]
  }

  /** What `_generate_browser_summary_cards` renders. */
  function CardSectionOf(stats: BrowserStats): CardSection
    requires WellFormed(stats)
  {
    if stats.counters == map[] then NoSection else Section(CardsOf(stats.order, stats.counters))
  }

  /** The cards of the browser statistics of a run. */
  function RunCards(rs: seq<TestResult>): seq<Card>
  {
    StatsKeys(rs);
    CardsOf(StatsOf(rs).order, StatsOf(rs).counters)
  }

  /** The position of a key in a duplicate-free key order. */
  function KeyIndex(keys: seq<string>, k: string): (p: nat)
    requires k in keys
    ensures p < |keys| && keys[p] == k
  {
    if keys[|keys| - 1] == k then |keys| - 1
    else
      assert keys == keys[..|keys| - 1] + [keys[|keys| - 1]];
      KeyIndex(keys[..|keys| - 1], k)
  }

  /** A card of a key other than "unknown", carrying that key's counters. */
  predicate CardOfKey(card: Card, keys: seq<string>, counters: map<string, Counters>)
  {
    && card.browser in keys && card.browser != UnknownTag
    && card.browser in counters
    && card == CardFor(card.browser, counters[card.browser])
  }

  /** Every card is that of a key other than "unknown", with that key's counters. */
  lemma {:induction false} CardsOfShape(keys: seq<string>, counters: map<string, Counters>)
    requires forall k :: k in keys ==> k in counters
    ensures forall j :: 0 <= j < |CardsOf(keys, counters)| ==> CardOfKey(CardsOf(keys, counters)[j], keys, counters)
  {
    if keys != [] {
      var ks := keys[..|keys| - 1];
      var b := keys[|keys| - 1];
      assert keys == ks + [b];
      CardsOfShape(ks, counters);
      var cards0 := CardsOf(ks, counters);
      var cards := CardsOf(keys, counters);
      forall j | 0 <= j < |cards|
        ensures CardOfKey(cards[j], keys, counters)
      {
        if j < |cards0| {
          assert cards[j] == cards0[j];
          assert CardOfKey(cards0[j], ks, counters);
        } else {
          assert b != UnknownTag && cards[j] == CardFor(b, counters[b]);
        }
      }
    }
  }

  /** There is one card per key, less one when "unknown" is a key. */
  lemma {:induction false} CardsOfCount(keys: seq<string>, counters: map<string, Counters>)
    requires NoDuplicates(keys)
    requires forall k :: k in keys ==> k in counters
    ensures |CardsOf(keys, counters)| == |keys| - (if UnknownTag in keys then 1 else 0)
  {
    if keys != [] {
      var ks := keys[..|keys| - 1];
      var b := keys[|keys| - 1];
      assert keys == ks + [b];
      assert b !in ks;
      assert NoDuplicates(ks);
      CardsOfCount(ks, counters);
      assert UnknownTag in keys <==> UnknownTag in ks || b == UnknownTag;
    }
  }

  /** Every key other than "unknown" has a card. */
  lemma {:induction false} CardsOfCover(keys: seq<string>, counters: map<string, Counters>, k: string)
    requires forall k :: k in keys ==> k in counters
    requires k in keys && k != UnknownTag
    ensures exists j :: 0 <= j < |CardsOf(keys, counters)| && CardsOf(keys, counters)[j].browser == k
  {
    var ks := keys[..|keys| - 1];
    var b := keys[|keys| - 1];
    assert keys == ks + [b];
    var cards := CardsOf(keys, counters);
    if k == b {
      assert cards[|cards| - 1].browser == k;
    } else {
      CardsOfCover(ks, counters, k);
      var j :| 0 <= j < |CardsOf(ks, counters)| && CardsOf(ks, counters)[j].browser == k;
      assert cards[j] == CardsOf(ks, counters)[j];
    }
  }

  /** Both are keys, and `a` comes first. */
  predicate KeyBefore(keys: seq<string>, a: string, b: string)
  {
    a in keys && b in keys && KeyIndex(keys, a) < KeyIndex(keys, b)
  }

  /** The cards follow the key order. */
  lemma {:induction false} CardsOfOrder(keys: seq<string>, counters: map<string, Counters>)
    requires NoDuplicates(keys)
    requires forall k :: k in keys ==> k in counters
    ensures forall j1, j2 :: 0 <= j1 < j2 < |CardsOf(keys, counters)| ==>
              KeyBefore(keys, CardsOf(keys, counters)[j1].browser, CardsOf(keys, counters)[j2].browser)
  {
    if keys != [] {
      var ks := keys[..|keys| - 1];
      var b := keys[|keys| - 1];
      assert keys == ks + [b];
      assert b !in ks;
      assert NoDuplicates(ks);
      CardsOfOrder(ks, counters);
      CardsOfShape(ks, counters);
      var cards0 := CardsOf(ks, counters);
      var cards := CardsOf(keys, counters);
      forall k | k in ks
        ensures KeyIndex(keys, k) == KeyIndex(ks, k) < |ks|
      {
      }
      forall j1, j2 | 0 <= j1 < j2 < |cards|
        ensures KeyBefore(keys, cards[j1].browser, cards[j2].browser)
      {
        assert cards[j1] == cards0[j1];
        assert CardOfKey(cards0[j1], ks, counters);
        if j2 < |cards0| {
          assert cards[j2] == cards0[j2];
          assert KeyBefore(ks, cards0[j1].browser, cards0[j2].browser);
        } else {
          assert cards[j2].browser == b;
        }
      }
    }
  }

  /** The card section of a run is absent exactly when nothing was recorded. */
  lemma BrowserSectionOfRun(rs: seq<TestResult>)
    ensures WellFormed(StatsOf(rs))
    ensures CardSectionOf(StatsOf(rs)) == if rs == [] then NoSection else Section(RunCards(rs))
  {
    StatsKeys(rs);
    if rs != [] {
      assert rs[0].browser in Tags(rs);
    }
  }

  /** One card per distinct browser tag, less one when "unknown" is among them. */
  lemma BrowserCardsCount(rs: seq<TestResult>)
    ensures |RunCards(rs)| == |FirstSeen(Tags(rs))| - (if UnknownTag in Tags(rs) then 1 else 0)
  {
    StatsKeys(rs);
    CardsOfCount(StatsOf(rs).order, StatsOf(rs).counters);
  }

  /** Every browser tag other than "unknown" has a card. */
  lemma BrowserCardsCover(rs: seq<TestResult>, b: string)
    requires b in Tags(rs) && b != UnknownTag
    ensures exists j :: 0 <= j < |RunCards(rs)| && RunCards(rs)[j].browser == b
  {
    var stats := StatsOf(rs);
    StatsKeys(rs);
    CardsOfCover(stats.order, stats.counters, b);
    var cards := CardsOf(stats.order, stats.counters);
    assert cards == RunCards(rs);
    var j :| 0 <= j < |cards| && cards[j].browser == b;
  }

  /**
   * A card of a run: a tag of the run other than "unknown", whose total is
   * its number of records, with a pass rate in [0, 100] that is its passed
   * share of that total.
   */
  predicate CardOfRun(card: Card, rs: seq<TestResult>)
  {
    && card.browser in Tags(rs) && card.browser != UnknownTag
    && card.total == multiset(Tags(rs))[card.browser] > 0
    && 0 <= card.passed + card.failed <= card.total
    && 0.0 <= card.passRate <= 100.0
    && card.passRate * (card.total as real) == (card.passed as real) * 100.0
  }

  /** The card of a tag of the run, built from that tag's counters. */
  lemma TallyCard(rs: seq<TestResult>, b: string)
    requires b in Tags(rs) && b != UnknownTag
    ensures CardOfRun(CardFor(b, Tally(rs, b)), rs)
  {
    var c := Tally(rs, b);
    assert c.total == multiset(Tags(rs))[b] > 0 by {
      TallyTotalIsOccurrences(rs, b);
      assert b in multiset(Tags(rs));
    }
    assert 0 <= c.passed && 0 <= c.failed && c.passed + c.failed <= c.total by {
      TallyBounds(rs, b);
    }
    CountersCard(rs, b, c);
  }

  lemma CountersCard(rs: seq<TestResult>, b: string, c: Counters)
    requires b in Tags(rs) && b != UnknownTag
    requires c.total == multiset(Tags(rs))[b] > 0
    requires 0 <= c.passed && 0 <= c.failed && c.passed + c.failed <= c.total
    ensures CardOfRun(CardFor(b, c), rs)
  {
    var rate := PassRate(c.passed, c.total);
    assert 0.0 <= rate <= 100.0;
  }

  /** What every card of a run holds. */
  lemma BrowserCardsContent(rs: seq<TestResult>)
    ensures forall j :: 0 <= j < |RunCards(rs)| ==> CardOfRun(RunCards(rs)[j], rs)
  {
    var stats := StatsOf(rs);
    StatsKeys(rs);
    var cards := CardsOf(stats.order, stats.counters);
    assert cards == RunCards(rs);
    CardsOfShape(stats.order, stats.counters);
    forall j | 0 <= j < |cards|
      ensures CardOfRun(cards[j], rs)
    {
      var b := cards[j].browser;
      assert CardOfKey(cards[j], stats.order, stats.counters);
      assert stats.counters[b] == Tally(rs, b);
      TallyCard(rs, b);
    }
  }

  /** The cards of a run follow the first-seen order of the browser tags. */
  lemma BrowserCardsFirstSeenOrder(rs: seq<TestResult>)
    ensures WellFormed(StatsOf(rs))
    ensures forall j1, j2 :: 0 <= j1 < j2 < |RunCards(rs)| ==>
              TagBefore(Tags(rs), RunCards(rs)[j1].browser, RunCards(rs)[j2].browser)
  {
    var stats := StatsOf(rs);
    var keys := stats.order;
    StatsKeys(rs);
    var cards := RunCards(rs);
    CardsOfOrder(keys, stats.counters);
    FirstSeenOrder(Tags(rs));
    forall j1, j2 | 0 <= j1 < j2 < |cards|
      ensures TagBefore(Tags(rs), cards[j1].browser, cards[j2].browser)
    {
      assert KeyBefore(keys, cards[j1].browser, cards[j2].browser);
      var a, b := KeyIndex(keys, cards[j1].browser), KeyIndex(keys, cards[j2].browser);
      assert keys[a] == cards[j1].browser && keys[b] == cards[j2].browser;
    }
  }

  /** `_generate_browser_summary_cards`: skips "unknown", appends one card per other key. */
  method BrowserSummaryCards(stats: BrowserStats) returns (section: CardSection)
    requires WellFormed(stats)
    ensures section == CardSectionOf(stats)
  {
    if stats.counters == map[] {
      return NoSection;
    }
    var cards: seq<Card> := [];
    for i := 0 to |stats.order|
      invariant cards == CardsOf(stats.order[..i], stats.counters)
    {
      var browser := stats.order[i];
      assert stats.order[..i + 1][..i] == stats.order[..i];
      if browser == UnknownTag {
        continue;
      }
      cards := cards + [CardFor(browser, stats.counters[browser])];
    }
    assert stats.order[..|stats.order|] == stats.order;
    section := Section(cards);
  }

  /**
   * The empty tag that `add_test_result` stores for a missing browser is not
   * "unknown", so it gets a card of its own.
   */
  lemma EmptyTagGetsCard(rs: seq<TestResult>, i: nat)
    requires i < |rs| && rs[i].browser == ""
    ensures exists j :: 0 <= j < |RunCards(rs)| && RunCards(rs)[j].browser == ""
  {
    assert Tags(rs)[i] == "";
    BrowserCardsCover(rs, "");
  }

  // ---------------------------------------------------------------------
  // Result rows
  // ---------------------------------------------------------------------

  /** The duration column: the value, or "N/A" when it is not positive. */
  datatype DurationCell = NotAvailable | Seconds(value: real)

  /** The clickable row of a result. */
  datatype MainRow = MainRow(
    index: nat,
    browser: string,
    browserIcon: string,
    name: string,
    status: string,
    statusClass: string,
    statusIcon: string,
    duration: DurationCell,
    time: string)

  /** The hidden row under it: details, and the error block when there is an error message. */
  datatype DetailRow = DetailRow(index: nat, browser: string, details: string, errorBlock: Option<string>)

  datatype Row = Row(main: MainRow, detail: DetailRow)

  /** What stops `generate_html_report` with an exception. */
  datatype ReportError =
    | MissingOutputDirectory      // os.makedirs("") for a path without a directory part
    | TimestampWithoutT(row: nat) // timestamp.split('T')[1] on a timestamp without 'T'

  function Min(a: nat, b: nat): nat { if a <= b then a else b }

  /**
   * The time column, `ts.split('T')[1][:8] if ts else 'N/A'`: at most eight
   * characters of the field between the first and the second 'T'. None
   * when the split has no second field (an IndexError).
   */
  function TimeColumn(ts: string): (r: Option<string>)
    ensures r.None? <==> ts != "" && 'T' !in ts
    ensures ts == "" ==> r == Some("N/A")
    ensures ts != "" && r.Some? ==> |r.value| <= 8 && 'T' !in r.value
    ensures ts != "" && r.Some? ==>
              var k := FirstIndexOf(ts, 'T').value;
              && k + 1 + |r.value| <= |ts|
              && ts[k + 1..k + 1 + |r.value|] == r.value
              && (|r.value| == 8 || k + 1 + |r.value| == |ts| || ts[k + 1 + |r.value|] == 'T')
  {
    if ts == "" then Some("N/A")
    else
      match FirstIndexOf(ts, 'T')
      case None => None
      case Some(k) =>
        var rest := ts[k + 1..];
        var field := match FirstIndexOf(rest, 'T')
                     case None => rest
                     case Some(m) => rest[..m];
        assert |field| < |rest| ==> rest[|field|] == 'T';
        var time := field[..Min(8, |field|)];
        assert ts[k + 1..k + 1 + |time|] == time;
        Some(time)
  }

  /** For an ISO-8601 timestamp "date T clock" the column shows the clock, cut to eight characters. */
  lemma TimeOfIsoTimestamp(date: string, clock: string)
    requires 'T' !in date && 'T' !in clock
    ensures TimeColumn(date + "T" + clock) == Some(clock[..Min(8, |clock|)])
  {
    var ts := date + "T" + clock;
    assert ts[..|date|] == date && ts[|date|] == 'T';
    assert ts[|date| + 1..] == clock;
  }

  /** The two table rows of the `index`-th result (counting from 1). */
  function RowFor(index: nat, r: TestResult): (row: Result<Row, ReportError>)
    ensures row.Failure? <==> r.timestamp != "" && 'T' !in r.timestamp
    ensures row.Failure? ==> row.error == TimestampWithoutT(index)
    ensures row.Success? ==> row.value.main.index == index && row.value.detail.index == index
    ensures row.Success? ==> (row.value.main.duration == NotAvailable <==> r.duration <= 0.0)
    ensures row.Success? ==> (row.value.detail.errorBlock.Some? <==> r.errorMessage != "")
    ensures row.Success? && r.errorMessage != "" ==> row.value.detail.errorBlock == Some(r.errorMessage)
    ensures row.Success? && r.duration > 0.0 ==> row.value.main.duration == Seconds(r.duration)
    ensures row.Success? ==> Some(row.value.main.time) == TimeColumn(r.timestamp)
    ensures row.Success? ==>
              && row.value.main.name == r.name && row.value.main.status == r.status
              && row.value.main.statusClass == Lower(r.status) && row.value.main.statusIcon == StatusIcon(r.status)
              && row.value.main.browser == r.browser && row.value.main.browserIcon == BrowserIcon(r.browser)
              && row.value.detail.browser == r.browser && row.value.detail.details == r.details
  {
    match TimeColumn(r.timestamp)
    case None => Failure(TimestampWithoutT(index))
    case Some(time) =>
      var main := MainRow(index, r.browser, BrowserIcon(r.browser), r.name, r.status,
                          Lower(r.status), StatusIcon(r.status),
                          if r.duration > 0.0 then Seconds(r.duration) else NotAvailable,
                          time);
      var detail := DetailRow(index, r.browser, r.details,
                              if r.errorMessage != "" then Some(r.errorMessage) else None);
      Success(Row(main, detail))
  }

  /** The rows of the results table; the first unreadable timestamp stops the rendering. */
  function RowsOf(rs: seq<TestResult>): Result<seq<Row>, ReportError>
  {
    if rs == [] then Success([])
    else
      match RowsOf(rs[..|rs| - 1])
      case Failure(e) => Failure(e)
      case Success(rows) =>
        match RowFor(|rs|, rs[|rs| - 1])
        case Failure(e) => Failure(e)
        case Success(row) => Success(rows + [row])
  }

  /** Whether a timestamp can be split into a time column. */
  predicate Splittable(ts: string) { ts == "" || 'T' in ts }

  /** Whether every timestamp of the records is splittable. */
  predicate AllSplittable(rs: seq<TestResult>)
  {
    forall i :: 0 <= i < |rs| ==> Splittable(rs[i].timestamp)
  }

  lemma AllSplittableSnoc(rs: seq<TestResult>)
    requires rs != []
    ensures AllSplittable(rs) <==> AllSplittable(rs[..|rs| - 1]) && Splittable(rs[|rs| - 1].timestamp)
  {
    var p := rs[..|rs| - 1];
    assert forall i :: 0 <= i < |p| ==> p[i] == rs[i];
  }

  lemma RowsPrefix(rs: seq<TestResult>, i: nat)
    requires i < |rs|
    ensures RowsOf(rs[..i + 1]) == match RowsOf(rs[..i])
                                   case Failure(e) => Failure(e)
                                   case Success(rows) =>
                                     match RowFor(i + 1, rs[i])
                                     case Failure(e) => Failure(e)
                                     case Success(row) => Success(rows + [row])
  {
    assert rs[..i + 1][..i] == rs[..i];
  }

  lemma RowsSnocSucceeds(rs: seq<TestResult>)
    requires rs != []
    ensures RowsOf(rs).Success? <==> RowsOf(rs[..|rs| - 1]).Success? && Splittable(rs[|rs| - 1].timestamp)
  {
    assert RowFor(|rs|, rs[|rs| - 1]).Success? <==> Splittable(rs[|rs| - 1].timestamp);
  }

  /** Rendering succeeds exactly when every timestamp is splittable. */
  lemma {:induction false} RowsSucceed(rs: seq<TestResult>)
    ensures RowsOf(rs).Success? <==> AllSplittable(rs)
  {
    if rs != [] {
      RowsSucceed(rs[..|rs| - 1]);
      RowsSnocSucceeds(rs);
      AllSplittableSnoc(rs);
    }
  }

  /** On success there is one pair of rows per result, numbered 1..n in recording order. */
  lemma {:induction false} RowsNumbered(rs: seq<TestResult>)
    requires RowsOf(rs).Success?
    ensures |RowsOf(rs).value| == |rs|
    ensures forall i :: 0 <= i < |rs| ==> Success(RowsOf(rs).value[i]) == RowFor(i + 1, rs[i])
  {
    if rs != [] {
      var p := rs[..|rs| - 1];
      assert RowsOf(p).Success?;
      RowsNumbered(p);
      var rows := RowsOf(rs).value;
      var rows0 := RowsOf(p).value;
      assert rows == rows0 + [rows[|rs| - 1]];
      forall i | 0 <= i < |rs|
        ensures Success(rows[i]) == RowFor(i + 1, rs[i])
      {
        if i < |p| {
          assert rows[i] == rows0[i] && p[i] == rs[i];
        }
      }
    }
  }

  /** On failure the error names the first result whose timestamp is not splittable. */
  lemma {:induction false} RowsFirstFailure(rs: seq<TestResult>)
    requires RowsOf(rs).Failure?
    ensures exists i :: 0 <= i < |rs| && RowsOf(rs).error == TimestampWithoutT(i + 1)
                        && !Splittable(rs[i].timestamp)
                        && forall j :: 0 <= j < i ==> Splittable(rs[j].timestamp)
  {
    var p := rs[..|rs| - 1];
    if RowsOf(p).Failure? {
      RowsFirstFailure(p);
      var i :| 0 <= i < |p| && RowsOf(p).error == TimestampWithoutT(i + 1)
               && !Splittable(p[i].timestamp)
               && forall j :: 0 <= j < i ==> Splittable(p[j].timestamp);
      assert forall j :: 0 <= j <= i ==> p[j] == rs[j];
    } else {
      RowsSucceed(p);
      assert forall j :: 0 <= j < |p| ==> p[j] == rs[j];
    }
  }

  /** The cells of the `index`-th row, as the loop body of `_generate_html_template` computes them. */
  method RenderRow(index: nat, result: TestResult) returns (row: Result<Row, ReportError>)
    ensures row == RowFor(index, result)
  {
    var time := TimeColumn(result.timestamp);
    if time.None? {
      return Failure(TimestampWithoutT(index));
    }
    var duration := if result.duration > 0.0 then Seconds(result.duration) else NotAvailable;
    var errorBlock := None;
    if result.errorMessage != "" {
      errorBlock := Some(result.errorMessage);
    }
    var main := MainRow(index, result.browser, BrowserIcon(result.browser), result.name,
                        result.status, Lower(result.status), StatusIcon(result.status),
                        duration, time.value);
    row := Success(Row(main, DetailRow(index, result.browser, result.details, errorBlock)));
  }

  /** The row loop of `_generate_html_template`, numbering from 1. */
  method ResultRows(rs: seq<TestResult>) returns (rows: Result<seq<Row>, ReportError>)
    ensures rows == RowsOf(rs)
  {
    var acc: seq<Row> := [];
    for i := 0 to |rs|
      invariant RowsOf(rs[..i]) == Success(acc)
    {
      RowsPrefix(rs, i);
      var row := RenderRow(i + 1, rs[i]);
      if row.Failure? {
        RowsFailAfter(rs, i + 1);
        return Failure(row.error);
      }
      acc := acc + [row.value];
    }
    assert rs[..|rs|] == rs;
    rows := Success(acc);
  }

  /** A failure in the first `n` rows is a failure of the whole table. */
  lemma {:induction false} RowsFailAfter(rs: seq<TestResult>, n: nat)
    requires n <= |rs| && RowsOf(rs[..n]).Failure?
    ensures RowsOf(rs) == RowsOf(rs[..n])
    decreases |rs| - n
  {
    if n < |rs| {
      assert rs[..n + 1][..n] == rs[..n];
      RowsFailAfter(rs, n + 1);
    } else {
      assert rs[..n] == rs;
    }
  }

  // ---------------------------------------------------------------------
  // The report
  // ---------------------------------------------------------------------

  /** The report, as a structure: heading, summary, browser cards and result rows. */
  datatype Report = Report(
    projectName: string,
    summary: Summary,
    browserCount: nat,
    cards: CardSection,
    rows: seq<Row>)

  /** `os.path.dirname(path)` is empty exactly when the path has no '/'. */
  predicate HasDirectory(path: string) { '/' in path }

  /** What `generate_html_report` renders for the recorded results. */
  function ReportOf(projectName: string, rs: seq<TestResult>, outputPath: string): Result<Report, ReportError>
  {
    if !HasDirectory(outputPath) then Failure(MissingOutputDirectory)
    else
      var stats := StatsOf(rs);
      StatsKeys(rs);
      match RowsOf(rs)
      case Failure(e) => Failure(e)
      case Success(rows) =>
        Success(Report(projectName, Summarize(rs), |stats.order|, CardSectionOf(stats), rows))
  }

  /**
   * A rendered report is self-consistent: one pair of rows per record, the
   * summary counts are the numbers of records with each status, the browser
   * count is the number of distinct tags, and the card section is absent
   * exactly for an empty run.
   */
  lemma ReportConsistent(projectName: string, rs: seq<TestResult>, outputPath: string)
    requires ReportOf(projectName, rs, outputPath).Success?
    ensures var report := ReportOf(projectName, rs, outputPath).value;
            && |report.rows| == report.summary.total == |rs|
            && report.summary.passed == multiset(Statuses(rs))[Passed]
            && report.summary.failed == multiset(Statuses(rs))[Failed]
            && report.summary.skipped == multiset(Statuses(rs))[Skipped]
            && report.browserCount == |FirstSeen(Tags(rs))|
            && (report.cards == NoSection <==> rs == [])
  {
    RowsNumbered(rs);
    CountStatusIsOccurrences(rs, Passed);
    CountStatusIsOccurrences(rs, Failed);
    CountStatusIsOccurrences(rs, Skipped);
    var stats := StatsOf(rs);
    StatsKeys(rs);
    if rs != [] {
      assert rs[0].browser in stats.counters;
    } else {
      assert stats.counters == map[];
    }
  }

  // ---------------------------------------------------------------------
  // The generator object
  // ---------------------------------------------------------------------

  /** `HTMLReportGenerator`: the result sink of one test run. */
  class ReportGenerator {
    var projectName: string
    var results: seq<TestResult>
    var startTime: Option<int>
    var endTime: Option<int>

    constructor (projectName: string := "QA Automation Test Suite")
      ensures this.projectName == projectName && results == []
      ensures startTime == None && endTime == None
    {
      this.projectName := projectName;
      results := [];
      startTime := None;
      endTime := None;
    }

    /** `add_test_result`: append one record; `now` is the clock's ISO-8601 reading. */
    method AddTestResult(testName: string, status: string, duration: real := 0.0,
                         details: string := "", errorMessage: string := "",
                         screenshotPath: string := "", browser: string := "",
                         nameonly now: string)
      modifies this
      ensures results == old(results) + [NewResult(testName, status, duration, details,
                                                   errorMessage, screenshotPath, browser, now)]
      ensures projectName == old(projectName)
      ensures startTime == old(startTime) && endTime == old(endTime)
    {
      var stored := NewResult(testName, status, duration, details, errorMessage,
                              screenshotPath, browser, now);
      results := results + [stored];
    }

    /** `set_session_times`. */
    method SetSessionTimes(start: int, end: int)
      modifies this
      ensures startTime == Some(start) && endTime == Some(end)
      ensures projectName == old(projectName) && results == old(results)
    {
      startTime := Some(start);
      endTime := Some(end);
    }

    /** `generate_html_report`: the rendered report, or the exception that stops it. */
    method GenerateHtmlReport(outputPath: string) returns (report: Result<Report, ReportError>)
      ensures report == ReportOf(projectName, results, outputPath)
    {
      if !HasDirectory(outputPath) {
        return Failure(MissingOutputDirectory);
      }
      var summary := Summarize(results);
      var stats := BrowserStatistics(results);
      StatsKeys(results);
      var cards := BrowserSummaryCards(stats);
      var rows := ResultRows(results);
      if rows.Failure? {
        return Failure(rows.error);
      }
      report := Success(Report(projectName, summary, |stats.order|, cards, rows.value));
    }
  }
}
