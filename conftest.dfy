/**
 * Log-file naming and rotation of `pytest_configure` in conftest.py: the
 * run name taken from the first command-line argument, the time-stamped log
 * file name, the header written at its top, and the rule that keeps only the
 * most recent logs of a run.
 *
 * The logs folder is a map from file name to modification time and content.
 * The clock reading (already formatted by strftime), the order in which the
 * folder lists its entries and the files the system refuses to remove are
 * parameters.
 */
module Conftest {
  import opened Wrappers
  import opened Text

  // ---------------------------------------------------------------------
  // Run name, log file name and header
  // ---------------------------------------------------------------------

  /** The run name when pytest gets no path argument. */
  const DefaultRun := "full_suite"

  /** The run name: the first argument's basename without its extension. */
  function RunName(args: seq<string>): (run: string)
    ensures args == [] ==> run == DefaultRun
    ensures args != [] ==> '/' !in run && StartsWith(Basename(args[0]), run)
    ensures args != [] && |run| < |Basename(args[0])| ==> Basename(args[0])[|run|] == '.'
    ensures args != [] ==>
              var base := Basename(args[0]);
              var ext := base[|run|..];
              && (ext == [] || (ext[0] == '.' && '.' !in ext[1..]))
              && (ext != [] <==> exists i, j :: 0 <= i < j < |base| && base[i] != '.' && base[j] == '.')
  {
    if args == [] then DefaultRun
    else
      var base := Basename(args[0]);
      var parts := SplitExt(base);
      assert base[..|parts.0|] == parts.0;
      assert forall i :: 0 <= i < |parts.0| ==> parts.0[i] == base[i];
      parts.0
  }

  /** The basename of `dir/file` is `file` when `file` holds no '/'. */
  lemma BasenameOfPath(dir: string, file: string)
    requires '/' !in file
    ensures Basename(dir + "/" + file) == file
  {
    var path := dir + "/" + file;
    var r := Basename(path);
    assert path[|dir|] == '/';
    assert forall i :: |dir| < i < |path| ==> path[i] == file[i - |dir| - 1];
    assert r == path[|path| - |r|..];
    assert path[|path| - |file|..] == file;
  }

  /** The only dot of `stem.ext` starts its extension. */
  lemma SplitExtOfScript(stem: string, ext: string)
    requires stem != [] && '.' !in stem && '.' !in ext
    ensures SplitExt(stem + "." + ext).0 == stem
  {
    var file := stem + "." + ext;
    var parts := SplitExt(file);
    assert file[0] != '.' && file[|stem|] == '.';
    assert parts.1 != [];
    var k := |parts.0|;
    assert file[k] == '.' by {
      assert file == parts.0 + parts.1;
    }
    assert forall i :: 0 <= i < |stem| ==> file[i] == stem[i];
    assert forall i :: |stem| < i < |file| ==> file[i] == ext[i - |stem| - 1];
    assert parts.0 == file[..k];
    assert file[..|stem|] == stem;
  }

  /** `pytest dir/login.py` is the run "login". */
  lemma RunNameOfScript(dir: string, stem: string, ext: string)
    requires stem != [] && '/' !in stem && '.' !in stem
    requires '/' !in ext && '.' !in ext
    ensures RunName([dir + "/" + stem + "." + ext]) == stem
  {
    var file := stem + "." + ext;
    assert dir + "/" + stem + "." + ext == dir + "/" + file;
    assert '/' !in file;
    BasenameOfPath(dir, file);
    SplitExtOfScript(stem, ext);
  }

  /** `f"{run}_{stamp}.txt"`; a log file name always matches its run's glob. */
  function LogFileName(run: string, stamp: string): (name: string)
    ensures Matches(run, name)
  {
    var name := run + "_" + stamp + ".txt";
    assert name[..|run| + 1] == run + "_";
    assert name[|name| - 4..] == ".txt";
    name
  }

  /**
   * The header of a new log: two newlines, the upper-cased run name
   * followed by " TEST" and a newline, and one more newline.
   */
  function Header(run: string): (h: string)
    ensures |h| == |run| + 9
    ensures h[..2] == "\n\n" && h[|h| - 7..] == " TEST\n\n"
    ensures forall i :: 2 <= i < |run| + 2 ==> !IsLowerAscii(h[i]) && LowerChar(h[i]) == LowerChar(run[i - 2])
  {
    var h := "\n\n" + Upper(run) + " TEST\n" + "\n";
    assert forall i :: 2 <= i < |run| + 2 ==> h[i] == Upper(run)[i - 2];
    h
  }

  /** Two runs get the same header exactly when their names agree once upper-cased. */
  lemma HeaderIgnoresCase(a: string, b: string)
    ensures Header(a) == Header(b) <==> Upper(a) == Upper(b)
  {
    if Header(a) == Header(b) {
      var h := Header(a);
      assert |a| == |b|;
      assert Upper(a) == h[2..|a| + 2] by {
        assert h == "\n\n" + Upper(a) + " TEST\n" + "\n";
      }
      assert Upper(b) == h[2..|b| + 2] by {
        assert h == "\n\n" + Upper(b) + " TEST\n" + "\n";
      }
    }
  }

  // ---------------------------------------------------------------------
  // Which files belong to a run
  // ---------------------------------------------------------------------

  /** The glob `<run>_*.txt`: starts with `run + "_"`, ends with ".txt", the two not overlapping. */
  predicate Matches(run: string, name: string)
  {
    |name| >= |run| + 5 && StartsWith(name, run + "_") && EndsWith(name, ".txt")
  }

  /** A name matches the glob exactly when it is the log file name of the run for some stamp. */
  lemma MatchesIsLogFileName(run: string, name: string)
    ensures Matches(run, name) <==> exists stamp :: name == LogFileName(run, stamp)
  {
    if Matches(run, name) {
      var stamp := name[|run| + 1..|name| - 4];
      assert name == name[..|run| + 1] + stamp + name[|name| - 4..];
      assert name == LogFileName(run, stamp);
    }
  }

  predicate IsDigit(c: char) { '0' <= c <= '9' }

  /** The shape of `strftime("%Y-%m-%d_%H%M")` for a four-digit year, as in "2024-01-31_0915". */
  predicate IsStamp(s: string)
  {
    && |s| == 15
    && (forall i :: 0 <= i < 15 && i != 4 && i != 7 && i != 10 ==> IsDigit(s[i]))
    && s[4] == '-' && s[7] == '-' && s[10] == '_'
  }

  /** A log file of this very run: the run name, "_", a stamp and ".txt". */
  predicate OwnLog(run: string, name: string)
  {
    && |name| == |run| + 20
    && StartsWith(name, run + "_")
    && EndsWith(name, ".txt")
    && IsStamp(name[|run| + 1..|run| + 16])
  }

  /** A file name is a log of the run exactly when its stamp has the strftime shape. */
  lemma OwnLogOfLogFileName(run: string, stamp: string)
    ensures OwnLog(run, LogFileName(run, stamp)) <==> IsStamp(stamp)
  {
    var name := LogFileName(run, stamp);
    if |stamp| == 15 {
      assert name[|run| + 1..|run| + 16] == stamp;
    }
  }

  /** Every log of the run matches the run's glob. */
  lemma OwnLogIsGlobMatch(run: string, name: string)
    requires OwnLog(run, name)
    ensures Matches(run, name)
  {
  }

  /** A log file belongs to one run only. */
  lemma OwnLogsDisjoint(a: string, b: string, name: string)
    requires OwnLog(a, name) && OwnLog(b, name)
    ensures a == b
  {
    assert |a| == |b|;
    assert a == (a + "_")[..|a|] == name[..|a|];
    assert b == (b + "_")[..|b|] == name[..|b|];
  }

  /**
   * The glob is wider than the run: with tests/login.py and
   * tests/login_basic.py in one suite, the glob of "login" also matches the
   * logs of "login_basic".
   */
  lemma GlobCatchesOtherRun()
    ensures Matches("login", LogFileName("login_basic", "2024-01-31_0915"))
    ensures OwnLog("login_basic", LogFileName("login_basic", "2024-01-31_0915"))
    ensures !OwnLog("login", LogFileName("login_basic", "2024-01-31_0915"))
  {
    var name := LogFileName("login_basic", "2024-01-31_0915");
    assert name[..6] == "login_";
    OwnLogOfLogFileName("login_basic", "2024-01-31_0915");
    assert |name| == 31;
  }

  // ---------------------------------------------------------------------
  // The logs folder and the retention rule
  // ---------------------------------------------------------------------

  /** A file of the logs folder: what `os.path.getmtime` reports, and its text. */
  datatype LogFile = LogFile(mtime: int, content: string)

  /** What stops `pytest_configure` with an exception. */
  datatype ConfigureError = RemoveFailed(name: string)  // os.remove raised

  /** The folder lists exactly its files, each once. */
  ghost predicate Lists(listing: seq<string>, files: map<string, LogFile>)
  {
    NoDuplicates(listing) && forall f :: f in listing <==> f in files
  }

  /** The names of `listing` that `keep` accepts, in listing order. */
  function Filter(listing: seq<string>, keep: string -> bool): (kept: seq<string>)
    ensures forall f :: f in kept <==> f in listing && keep(f)
    ensures NoDuplicates(listing) ==> NoDuplicates(kept)
  {
    if listing == [] then []
    else
      var init := listing[..|listing| - 1];
      var last := listing[|listing| - 1];
      assert listing == init + [last];
      var kept := Filter(init, keep);
      if keep(last) then kept + [last] else kept
  }

  /** `glob.glob(os.path.join(log_folder, f"{run}_*.txt"))`, in listing order. */
  function Glob(listing: seq<string>, run: string): (matching: seq<string>)
    ensures forall f :: f in matching <==> f in listing && Matches(run, f)
    ensures NoDuplicates(listing) ==> NoDuplicates(matching)
  {
    Filter(listing, name => Matches(run, name))
  }

  /** The logs of this run only: the glob narrowed to names with a stamp. */
  function OwnLogs(listing: seq<string>, run: string): (own: seq<string>)
    ensures forall f :: f in own <==> f in listing && OwnLog(run, f)
    ensures NoDuplicates(listing) ==> NoDuplicates(own)
  {
    Filter(listing, name => OwnLog(run, name))
  }

  /**
   * Which files the rotation considers: the glob as the code writes it, or
   * the run's own logs as intended.
   */
  datatype Selection = AsWritten | OwnLogsOnly

  predicate Selected(sel: Selection, run: string, name: string)
  {
    match sel
    case AsWritten => Matches(run, name)
    case OwnLogsOnly => OwnLog(run, name)
  }

  /** The names the rotation considers, in listing order. */
  function Candidates(listing: seq<string>, run: string, sel: Selection): (candidates: seq<string>)
    ensures forall f :: f in candidates <==> f in listing && Selected(sel, run, f)
    ensures NoDuplicates(listing) ==> NoDuplicates(candidates)
  {
    match sel
    case AsWritten => Glob(listing, run)
    case OwnLogsOnly => OwnLogs(listing, run)
  }

  predicate InFolder(names: seq<string>, files: map<string, LogFile>)
  {
    forall f :: f in names ==> f in files
  }

  /** Modification times never decrease along `names`. */
  predicate OldestFirst(names: seq<string>, files: map<string, LogFile>)
    requires InFolder(names, files)
  {
    forall i, j :: 0 <= i < j < |names| ==> files[names[i]].mtime <= files[names[j]].mtime
  }

  /** Puts `name` after every entry that is not newer, so that equal times keep their order. */
  function InsertByMtime(sorted: seq<string>, name: string, files: map<string, LogFile>): (r: seq<string>)
    requires InFolder(sorted, files) && name in files
    ensures multiset(r) == multiset(sorted) + multiset{name}
  {
    if sorted == [] || files[sorted[|sorted| - 1]].mtime <= files[name].mtime then sorted + [name]
    else
      var init := sorted[..|sorted| - 1];
      var last := sorted[|sorted| - 1];
      assert sorted == init + [last];
      InsertByMtime(init, name, files) + [last]
  }

  /** `matching_logs.sort(key=os.path.getmtime)`: a stable sort by modification time. */
  function SortByMtime(names: seq<string>, files: map<string, LogFile>): (sorted: seq<string>)
    requires InFolder(names, files)
    ensures multiset(sorted) == multiset(names)
  {
    if names == [] then []
    else
      var init := names[..|names| - 1];
      var last := names[|names| - 1];
      assert names == init + [last];
      var sortedInit := SortByMtime(init, files);
      assert forall f :: f in sortedInit ==> f in multiset(init);
      InsertByMtime(sortedInit, last, files)
  }

  /** The names after insertion are the old ones and the inserted one. */
  lemma InsertMembers(sorted: seq<string>, name: string, files: map<string, LogFile>)
    requires InFolder(sorted, files) && name in files
    ensures forall f :: f in InsertByMtime(sorted, name, files) <==> f in sorted || f == name
  {
    var r := InsertByMtime(sorted, name, files);
    assert forall f :: f in r <==> f in multiset(r);
    assert forall f :: f in sorted <==> f in multiset(sorted);
  }

  /** Appending a name no older than every name keeps the order. */
  lemma OldestFirstSnoc(names: seq<string>, last: string, files: map<string, LogFile>)
    requires InFolder(names, files) && last in files && OldestFirst(names, files)
    requires forall f :: f in names ==> files[f].mtime <= files[last].mtime
    ensures InFolder(names + [last], files) && OldestFirst(names + [last], files)
  {
    var r := names + [last];
    forall i, j | 0 <= i < j < |r|
      ensures files[r[i]].mtime <= files[r[j]].mtime
    {
      assert r[i] == names[i];
      if j < |names| {
        assert r[j] == names[j];
      }
    }
  }

  lemma {:induction false} InsertKeepsOrder(sorted: seq<string>, name: string, files: map<string, LogFile>)
    requires InFolder(sorted, files) && name in files && OldestFirst(sorted, files)
    ensures InFolder(InsertByMtime(sorted, name, files), files)
    ensures OldestFirst(InsertByMtime(sorted, name, files), files)
  {
    if sorted == [] || files[sorted[|sorted| - 1]].mtime <= files[name].mtime {
      forall f | f in sorted
        ensures files[f].mtime <= files[name].mtime
      {
        var i :| 0 <= i < |sorted| && sorted[i] == f;
        assert files[sorted[i]].mtime <= files[sorted[|sorted| - 1]].mtime;
      }
      OldestFirstSnoc(sorted, name, files);
    } else {
      var init := sorted[..|sorted| - 1];
      var last := sorted[|sorted| - 1];
      assert sorted == init + [last];
      assert OldestFirst(init, files);
      InsertKeepsOrder(init, name, files);
      InsertMembers(init, name, files);
      var front := InsertByMtime(init, name, files);
      forall f | f in front
        ensures files[f].mtime <= files[last].mtime
      {
        if f != name {
          var i :| 0 <= i < |init| && init[i] == f;
          assert sorted[i] == f;
        }
      }
      OldestFirstSnoc(front, last, files);
    }
  }

  /** The sort orders the names oldest first. */
  lemma {:induction false} SortIsOldestFirst(names: seq<string>, files: map<string, LogFile>)
    requires InFolder(names, files)
    ensures InFolder(SortByMtime(names, files), files)
    ensures OldestFirst(SortByMtime(names, files), files)
  {
    if names != [] {
      var init := names[..|names| - 1];
      assert names == init + [names[|names| - 1]];
      SortIsOldestFirst(init, files);
      InsertKeepsOrder(SortByMtime(init, files), names[|names| - 1], files);
    }
  }

  /** The number of logs at which rotation starts, and how many of them it keeps. */
  const RotateAt := 5
  const KeepNewest := 4

  /** `matching_logs[:len(matching_logs) - 4]` when there are at least five, nothing otherwise. */
  function Retire(sorted: seq<string>): (retired: seq<string>)
    ensures retired <= sorted
    ensures |sorted| - |retired| == if |sorted| >= RotateAt then KeepNewest else |sorted|
  {
    if |sorted| >= RotateAt then sorted[..|sorted| - KeepNewest] else []
  }

  /** The files the rotation removes, oldest first. */
  function Doomed(files: map<string, LogFile>, candidates: seq<string>): (doomed: seq<string>)
    requires InFolder(candidates, files)
    ensures forall f :: f in doomed ==> f in candidates
    ensures |candidates| < RotateAt ==> doomed == []
    ensures |candidates| >= RotateAt ==> |doomed| == |candidates| - KeepNewest
  {
    var sorted := SortByMtime(candidates, files);
    assert |sorted| == |multiset(sorted)| == |candidates|;
    assert forall f :: f in sorted ==> f in multiset(sorted);
    var retired := Retire(sorted);
    assert forall f :: f in retired ==> f in sorted by {
      forall f | f in retired
        ensures f in sorted
      {
        var i :| 0 <= i < |retired| && retired[i] == f;
        assert sorted[i] == f;
      }
    }
    retired
  }

  lemma {:induction false} NoDuplicatesByCount(s: seq<string>)
    ensures NoDuplicates(s) <==> forall x :: multiset(s)[x] <= 1
  {
    if s != [] {
      var init := s[..|s| - 1];
      var last := s[|s| - 1];
      assert s == init + [last];
      NoDuplicatesByCount(init);
      assert multiset(s) == multiset(init) + multiset{last};
      if NoDuplicates(s) {
        assert NoDuplicates(init);
        assert last !in init;
      }
      if forall x :: multiset(s)[x] <= 1 {
        assert NoDuplicates(init) by {
          forall x ensures multiset(init)[x] <= 1 {
            assert multiset(s)[x] >= multiset(init)[x];
          }
        }
        assert multiset(s)[last] == multiset(init)[last] + 1;
        assert last !in multiset(init);
        assert forall i :: 0 <= i < |init| ==> init[i] != last;
      }
    }
  }

  /** Both are candidates, and `older` was modified no later than `newer`. */
  predicate NotNewer(files: map<string, LogFile>, older: string, newer: string)
  {
    older in files && newer in files && files[older].mtime <= files[newer].mtime
  }

  /**
   * The retention rule: no file is removed twice, and no removed file is
   * newer than a kept one.
   */
  lemma RetentionPolicy(files: map<string, LogFile>, candidates: seq<string>)
    requires InFolder(candidates, files) && NoDuplicates(candidates)
    ensures NoDuplicates(Doomed(files, candidates))
    ensures forall f, g :: f in Doomed(files, candidates) && g in candidates && g !in Doomed(files, candidates)
              ==> NotNewer(files, f, g)
  {
    var sorted := SortByMtime(candidates, files);
    var doomed := Doomed(files, candidates);
    assert |sorted| == |multiset(sorted)| == |candidates|;
    assert forall f :: f in sorted <==> f in candidates by {
      assert forall f :: f in sorted <==> f in multiset(sorted);
      assert forall f :: f in candidates <==> f in multiset(candidates);
    }
    NoDuplicatesByCount(candidates);
    NoDuplicatesByCount(sorted);
    SortIsOldestFirst(candidates, files);
    if |sorted| >= RotateAt {
      var n := |sorted| - KeepNewest;
      assert doomed == sorted[..n];
      forall f, g | f in doomed && g in candidates && g !in doomed
        ensures NotNewer(files, f, g)
      {
        var i :| 0 <= i < n && sorted[i] == f;
        var j :| 0 <= j < |sorted| && sorted[j] == g;
      }
    }
  }

  /** The files of the folder other than `names`, untouched. */
  function RemoveNames(files: map<string, LogFile>, names: seq<string>): (rest: map<string, LogFile>)
    ensures forall f :: f in rest <==> f in files && f !in names
    ensures forall f :: f in rest ==> rest[f] == files[f]
  {
    map f | f in files && f !in names :: files[f]
  }

  /** The position of the first name the system refuses to remove, or the length when there is none. */
  function FirstBlocked(names: seq<string>, undeletable: set<string>): (k: nat)
    ensures k <= |names|
    ensures forall j :: 0 <= j < k ==> names[j] !in undeletable
    ensures k < |names| ==> names[k] in undeletable
  {
    if names == [] || names[0] in undeletable then 0
    else 1 + FirstBlocked(names[1..], undeletable)
  }

  lemma FirstBlockedAt(names: seq<string>, undeletable: set<string>, i: nat)
    requires i <= |names|
    requires forall j :: 0 <= j < i ==> names[j] !in undeletable
    requires i < |names| ==> names[i] in undeletable
    ensures FirstBlocked(names, undeletable) == i
  {
  }

  lemma RemoveNext(files: map<string, LogFile>, names: seq<string>, i: nat)
    requires i < |names|
    ensures RemoveNames(files, names[..i]) - {names[i]} == RemoveNames(files, names[..i + 1])
  {
    assert names[..i + 1] == names[..i] + [names[i]];
  }

  /** The files of a folder the selection attributes to the run. */
  function LogsOf(files: map<string, LogFile>, run: string, sel: Selection): set<string>
  {
    set f | f in files && Selected(sel, run, f)
  }

  lemma {:induction false} DistinctCount(s: seq<string>)
    ensures |set x | x in s| <= |s|
  {
    if s != [] {
      var init := s[..|s| - 1];
      assert s == init + [s[|s| - 1]];
      DistinctCount(init);
      assert (set x | x in s) == (set x | x in init) + {s[|s| - 1]};
    }
  }

  lemma {:induction false} SubsetCount(a: set<string>, b: set<string>)
    requires a <= b
    ensures |a| <= |b|
  {
    if a != {} {
      var x :| x in a;
      SubsetCount(a - {x}, b - {x});
    }
  }

  /** Every candidate is either removed or one of at most four kept names. */
  lemma Survivors(files: map<string, LogFile>, candidates: seq<string>) returns (keep: seq<string>)
    requires InFolder(candidates, files)
    ensures |keep| <= KeepNewest
    ensures forall f :: f in candidates ==> f in Doomed(files, candidates) || f in keep
  {
    var doomed := Doomed(files, candidates);
    var sorted := SortByMtime(candidates, files);
    assert |sorted| == |multiset(sorted)| == |candidates|;
    keep := if |sorted| >= RotateAt then sorted[|sorted| - KeepNewest..] else sorted;
    forall f | f in candidates
      ensures f in doomed || f in keep
    {
      assert f in multiset(sorted);
      var i :| 0 <= i < |sorted| && sorted[i] == f;
      if |sorted| >= RotateAt && i >= |sorted| - KeepNewest {
        assert keep[i - (|sorted| - KeepNewest)] == f;
      }
    }
  }

  /**
   * After a successful configuration the folder holds at most five files the
   * selection attributes to the run: at most four survivors of the rotation
   * and the new log. This holds for the glob as written and for the run's
   * own logs alike.
   */
  lemma AtMostFiveLogs(files: map<string, LogFile>, listing: seq<string>, run: string,
                       sel: Selection, stamp: string, now: int)
    requires Lists(listing, files)
    ensures InFolder(Candidates(listing, run, sel), files)
    ensures var after := RemoveNames(files, Doomed(files, Candidates(listing, run, sel)))
                         [LogFileName(run, stamp) := LogFile(now, Header(run))];
            |LogsOf(after, run, sel)| <= RotateAt
  {
    var candidates := Candidates(listing, run, sel);
    var name := LogFileName(run, stamp);
    var after := RemoveNames(files, Doomed(files, candidates))[name := LogFile(now, Header(run))];
    var keep := Survivors(files, candidates);
    assert LogsOf(after, run, sel) <= (set x | x in keep) + {name};
    SubsetCount(LogsOf(after, run, sel), (set x | x in keep) + {name});
    DistinctCount(keep);
  }

  /**
   * Files the selection does not attribute to the run are never touched,
   * apart from the new log's own name.
   */
  lemma OthersUntouched(files: map<string, LogFile>, listing: seq<string>, run: string,
                        sel: Selection, stamp: string, now: int, f: string)
    requires Lists(listing, files)
    requires f in files && !Selected(sel, run, f) && f != LogFileName(run, stamp)
    ensures InFolder(Candidates(listing, run, sel), files)
    ensures var after := RemoveNames(files, Doomed(files, Candidates(listing, run, sel)))
                         [LogFileName(run, stamp) := LogFile(now, Header(run))];
            f in after && after[f] == files[f]
  {
  }

  /** In particular the logs of another run stay, whatever their names have in common. */
  lemma OtherRunsKept(files: map<string, LogFile>, listing: seq<string>, run: string, other: string,
                      stamp: string, now: int, f: string)
    requires Lists(listing, files) && IsStamp(stamp)
    requires f in files && OwnLog(other, f) && other != run
    ensures InFolder(Candidates(listing, run, OwnLogsOnly), files)
    ensures var after := RemoveNames(files, Doomed(files, Candidates(listing, run, OwnLogsOnly)))
                         [LogFileName(run, stamp) := LogFile(now, Header(run))];
            f in after && after[f] == files[f]
  {
    if OwnLog(run, f) {
      OwnLogsDisjoint(run, other, f);
    }
    OwnLogOfLogFileName(run, stamp);
    if f == LogFileName(run, stamp) {
      OwnLogsDisjoint(run, other, f);
    }
    OthersUntouched(files, listing, run, OwnLogsOnly, stamp, now, f);
  }

  /**
   * As written, the glob of "login" rotates the logs of "login_basic": a
   * folder holding five of them loses the oldest when "login" starts, while
   * the run's own logs leave it untouched.
   */
  lemma GlobRotatesOtherRun(files: map<string, LogFile>, listing: seq<string>)
    requires Lists(listing, files) && |listing| == RotateAt
    requires forall f :: f in listing ==> OwnLog("login_basic", f)
    ensures InFolder(Glob(listing, "login"), files) && InFolder(OwnLogs(listing, "login"), files)
    ensures |Doomed(files, Glob(listing, "login"))| == 1
    ensures Doomed(files, OwnLogs(listing, "login")) == []
  {
    forall f | f in listing
      ensures Matches("login", f) && !OwnLog("login", f)
    {
      assert f[..6] == "login_";
      if OwnLog("login", f) {
        OwnLogsDisjoint("login", "login_basic", f);
      }
    }
    assert Glob(listing, "login") == listing by {
      GlobKeepsAll(listing, "login");
    }
    RetentionPolicy(files, listing);
    var own := OwnLogs(listing, "login");
    assert forall f :: f !in own;
    RetentionPolicy(files, own);
  }

  lemma {:induction false} GlobKeepsAll(listing: seq<string>, run: string)
    requires forall f :: f in listing ==> Matches(run, f)
    ensures Glob(listing, run) == listing
  {
    if listing != [] {
      var init := listing[..|listing| - 1];
      assert listing == init + [listing[|listing| - 1]];
      GlobKeepsAll(init, run);
    }
  }

  // ---------------------------------------------------------------------
  // The folder, changed step by step
  // ---------------------------------------------------------------------

  /** The logs folder next to conftest.py. */
  class LogFolder {
    var files: map<string, LogFile>

    constructor (files: map<string, LogFile>)
      ensures this.files == files
    {
      this.files := files;
    }

    /**
     * Lines 27-31: collect the run's logs oldest first and remove all but the
     * four newest, one `os.remove` at a time; the first refusal propagates.
     */
    method Rotate(run: string, listing: seq<string>, sel: Selection, undeletable: set<string>)
      returns (outcome: Result<(), ConfigureError>)
      requires Lists(listing, files)
      modifies this
      ensures InFolder(Candidates(listing, run, sel), old(files))
      ensures var doomed := Doomed(old(files), Candidates(listing, run, sel));
              var k := FirstBlocked(doomed, undeletable);
              && files == RemoveNames(old(files), doomed[..k])
              && outcome == if k < |doomed| then Failure(RemoveFailed(doomed[k])) else Success(())
    {
      var matching := Candidates(listing, run, sel);
      var sorted := SortByMtime(matching, files);
      var victims := Retire(sorted);  // empty when fewer than five
      for i := 0 to |victims|
        invariant files == RemoveNames(old(files), victims[..i])
        invariant forall j :: 0 <= j < i ==> victims[j] !in undeletable
      {
        if victims[i] in undeletable {
          FirstBlockedAt(victims, undeletable, i);
          return Failure(RemoveFailed(victims[i]));
        }
        RemoveNext(old(files), victims, i);
        files := files - {victims[i]};
      }
      FirstBlockedAt(victims, undeletable, |victims|);
      assert victims[..|victims|] == victims;
      outcome := Success(());
    }

    /**
     * `pytest_configure` up to the header of the new log: name the run and
     * its log file, rotate the run's logs, then create the log with its
     * header (which replaces a log of the same minute).
     */
    method Configure(args: seq<string>, stamp: string, listing: seq<string>, sel: Selection,
                     now: int, undeletable: set<string>)
      returns (outcome: Result<string, ConfigureError>)
      requires Lists(listing, files)
      modifies this
      ensures InFolder(Candidates(listing, RunName(args), sel), old(files))
      ensures var run := RunName(args);
              var doomed := Doomed(old(files), Candidates(listing, run, sel));
              var k := FirstBlocked(doomed, undeletable);
              if k < |doomed| then
                outcome == Failure(RemoveFailed(doomed[k])) && files == RemoveNames(old(files), doomed[..k])
              else
                && outcome == Success(LogFileName(run, stamp))
                && files == RemoveNames(old(files), doomed)[LogFileName(run, stamp) := LogFile(now, Header(run))]
    {
      var run := RunName(args);
      var name := LogFileName(run, stamp);
      var rotated := Rotate(run, listing, sel, undeletable);
      if rotated.Failure? {
        return Failure(rotated.error);
      }
      ghost var doomed := Doomed(old(files), Candidates(listing, run, sel));
      assert doomed[..|doomed|] == doomed;
      files := files[name := LogFile(now, Header(run))];
      outcome := Success(name);
    }
  }
}
