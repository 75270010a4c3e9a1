/**
 What the recommender promises about its reports: which list an entry lands
 in, the precedence of the checks, the install rules, how the profiles relate,
 what the summary counts mean, and how the components are partitioned.
 */
module RecommendLaws {
  import opened Text
  import opened Rules
  import opened Dedupe
  import opened Recommend

  /** An entry that passes every earlier check and so reaches the
      recommendation step; the profile plays no part in this. */
  predicate ReachesRecommendation(rel: string, env: Env) {
    IsValidRelativePath(rel) && env.isFile(rel) && !IsNotNeeded(rel) && !IsSystemCritical(rel)
  }

  /** The same run with another profile. */
  function WithProfile(env: Env, profile: Profile): Env {
    env.(opts := env.opts.(profile := profile))
  }

  lemma {:induction false} AppendGet(acc: Lists, rel: string, v: Verdict, w: ListName)
    ensures Append(acc, rel, v).Get(w) == acc.Get(w) + if Goes(v, w) then [rel] else []
  {
  }

  lemma {:induction false} DedupeAllGet(l: Lists, w: ListName)
    ensures DedupeAll(l).Get(w) == Deduped(l.Get(w))
  {
  }

  /** The verdict of one entry, check by check. */
  lemma {:induction false} JudgeCases(x: string, env: Env)
    ensures Judge(x, env).Invalid? <==> !IsValidRelativePath(x)
    ensures Judge(x, env).Missing? <==> IsValidRelativePath(x) && !env.isFile(x)
    ensures Judge(x, env).NotNeeded? <==> IsValidRelativePath(x) && env.isFile(x) && IsNotNeeded(x)
    ensures Judge(x, env).Critical? <==>
      IsValidRelativePath(x) && env.isFile(x) && !IsNotNeeded(x) && IsSystemCritical(x)
    ensures Judge(x, env).Candidate? <==> ReachesRecommendation(x, env)
    ensures Judge(x, env).NotNeeded? ==> Judge(x, env).install == (env.opts.includeNotNeeded || env.opts.profile == Full)
    ensures Judge(x, env).Critical? ==> Judge(x, env).install == (env.opts.includeCritical || env.opts.profile == Full)
    ensures Judge(x, env).Candidate? ==>
      && Judge(x, env).optional == (ClassifyComponent(x) != General && !Lookup(env.detected, ClassifyComponent(x)))
      && Judge(x, env).recommend == Recommends(env.opts.profile, ClassifyComponent(x), Lookup(env.detected, ClassifyComponent(x)), x)
  {
  }

  /** Before deduplication, a list holds exactly the entries whose verdict selects it. */
  lemma {:induction false} ColumnsByHas(entries: seq<string>, judge: string -> Verdict, w: ListName, x: string)
    ensures x in ColumnsBy(entries, judge).Get(w) <==> x in entries && Goes(judge(x), w)
  {
    if entries != [] {
      var init, last := entries[..|entries| - 1], entries[|entries| - 1];
      ColumnsByHas(init, judge, w, x);
      AppendGet(ColumnsBy(init, judge), last, judge(last), w);
      assert entries == init + [last];
    }
  }

  lemma {:induction false} ColumnsHas(entries: seq<string>, env: Env, w: ListName, x: string)
    ensures x in Columns(entries, env).Get(w) <==> x in entries && Goes(Judge(x, env), w)
  {
    ColumnsByHas(entries, JudgeIn(env), w, x);
  }

  /** Every report file holds exactly the manifest entries whose verdict selects it. */
  lemma {:induction false} OutputsHas(rawLines: seq<string>, env: Env, w: ListName, x: string)
    ensures x in Outputs(rawLines, env).Get(w) <==> x in Entries(rawLines) && Goes(Judge(x, env), w)
  {
    var cols := Columns(Entries(rawLines), env);
    DedupeAllGet(cols, w);
    DedupedHas(cols.Get(w), x);
    ColumnsHas(Entries(rawLines), env, w, x);
  }

  /* The checks run in a fixed order: invalid, missing, not needed,
     system-critical, then the recommendation step. Each list, by what its
     entries must satisfy: */

  /** `invalid_entries.txt`: the entries that are not acceptable relative paths; existence is never asked. */
  lemma {:induction false} InvalidListed(rawLines: seq<string>, env: Env, x: string)
    ensures x in Outputs(rawLines, env).invalidEntries <==>
      x in Entries(rawLines) && !IsValidRelativePath(x)
  {
    OutputsHas(rawLines, env, InvalidEntriesTxt, x);
    assert Goes(Judge(x, env), InvalidEntriesTxt) <==> !IsValidRelativePath(x) by {
      JudgeCases(x, env);
    }
  }

  /** `missing_files.txt`: the valid entries that are not a file under the source directory. */
  lemma {:induction false} MissingListed(rawLines: seq<string>, env: Env, x: string)
    ensures x in Outputs(rawLines, env).missingFiles <==>
      x in Entries(rawLines) && IsValidRelativePath(x) && !env.isFile(x)
  {
    OutputsHas(rawLines, env, MissingFilesTxt, x);
    assert Goes(Judge(x, env), MissingFilesTxt) <==> IsValidRelativePath(x) && !env.isFile(x) by {
      JudgeCases(x, env);
    }
  }

  /** `not_needed.txt`: the existing tests and snapshots. */
  lemma {:induction false} NotNeededListed(rawLines: seq<string>, env: Env, x: string)
    ensures x in Outputs(rawLines, env).notNeeded <==>
      x in Entries(rawLines) && IsValidRelativePath(x) && env.isFile(x) && IsNotNeeded(x)
  {
    OutputsHas(rawLines, env, NotNeededTxt, x);
    assert Goes(Judge(x, env), NotNeededTxt) <==> IsValidRelativePath(x) && env.isFile(x) && IsNotNeeded(x) by {
      JudgeCases(x, env);
    }
  }

  /** `system_critical.txt`: the existing code files that are not tests or snapshots. */
  lemma {:induction false} CriticalListed(rawLines: seq<string>, env: Env, x: string)
    ensures x in Outputs(rawLines, env).critical <==>
      x in Entries(rawLines) && IsValidRelativePath(x) && env.isFile(x) && !IsNotNeeded(x) && IsSystemCritical(x)
  {
    OutputsHas(rawLines, env, SystemCriticalTxt, x);
    assert Goes(Judge(x, env), SystemCriticalTxt) <==> IsValidRelativePath(x) && env.isFile(x) && !IsNotNeeded(x) && IsSystemCritical(x) by {
      JudgeCases(x, env);
    }
  }

  /** `optional_unmatched.txt`: the entries that reach the recommendation step and belong to a named component that was not detected, whatever the profile. */
  lemma {:induction false} OptionalListed(rawLines: seq<string>, env: Env, x: string)
    ensures x in Outputs(rawLines, env).optionalUnmatched <==>
      x in Entries(rawLines) && ReachesRecommendation(x, env)
      && ClassifyComponent(x) != General && !Lookup(env.detected, ClassifyComponent(x))
  {
    OutputsHas(rawLines, env, OptionalUnmatchedTxt, x);
    assert Goes(Judge(x, env), OptionalUnmatchedTxt) <==> (
      ReachesRecommendation(x, env)
      && ClassifyComponent(x) != General && !Lookup(env.detected, ClassifyComponent(x))) by {
      JudgeCases(x, env);
    }
  }

  /** `recommended.txt`: the entries that reach the recommendation step and that the profile recommends. */
  lemma {:induction false} RecommendedListed(rawLines: seq<string>, env: Env, x: string)
    ensures x in Outputs(rawLines, env).recommended <==>
      x in Entries(rawLines) && ReachesRecommendation(x, env)
      && Recommends(env.opts.profile, ClassifyComponent(x), Lookup(env.detected, ClassifyComponent(x)), x)
  {
    OutputsHas(rawLines, env, RecommendedTxt, x);
    assert Goes(Judge(x, env), RecommendedTxt) <==> (
      ReachesRecommendation(x, env)
      && Recommends(env.opts.profile, ClassifyComponent(x), Lookup(env.detected, ClassifyComponent(x)), x)) by {
      JudgeCases(x, env);
    }
  }

  /** `install_list.txt`: every recommended entry, the not-needed ones when
      `--include-not-needed` or `full`, the system-critical ones when
      `--include-critical` or `full`, and nothing else. */
  lemma {:induction false} InstallListed(rawLines: seq<string>, env: Env, x: string)
    ensures var o := Outputs(rawLines, env);
      x in o.installList <==>
        || x in o.recommended
        || (x in o.notNeeded && (env.opts.includeNotNeeded || env.opts.profile == Full))
        || (x in o.critical && (env.opts.includeCritical || env.opts.profile == Full))
  {
    OutputsHas(rawLines, env, InstallListTxt, x);
    OutputsHas(rawLines, env, RecommendedTxt, x);
    OutputsHas(rawLines, env, NotNeededTxt, x);
    OutputsHas(rawLines, env, SystemCriticalTxt, x);
    InstallVerdict(Judge(x, env), env.opts.includeNotNeeded || env.opts.profile == Full,
      env.opts.includeCritical || env.opts.profile == Full) by {
      JudgeCases(x, env);
    }
  }

  /** The install rule on one verdict, given the two switches it depends on. */
  lemma {:induction false} InstallVerdict(v: Verdict, withNotNeeded: bool, withCritical: bool)
    requires v.NotNeeded? ==> v.install == withNotNeeded
    requires v.Critical? ==> v.install == withCritical
    ensures Goes(v, InstallListTxt) <==>
      Goes(v, RecommendedTxt) || (Goes(v, NotNeededTxt) && withNotNeeded) || (Goes(v, SystemCriticalTxt) && withCritical)
  {
  }

  /** An invalid entry is reported in `invalid_entries.txt` and nowhere else. */
  lemma {:induction false} InvalidOnlyInvalid(rawLines: seq<string>, env: Env, x: string, w: ListName)
    requires x in Outputs(rawLines, env).invalidEntries
    ensures x in Outputs(rawLines, env).Get(w) <==> w == InvalidEntriesTxt
  {
    OutputsHas(rawLines, env, InvalidEntriesTxt, x);
    OutputsHas(rawLines, env, w, x);
  }

  /** A missing entry is reported in `missing_files.txt` and nowhere else. */
  lemma {:induction false} MissingOnlyMissing(rawLines: seq<string>, env: Env, x: string, w: ListName)
    requires x in Outputs(rawLines, env).missingFiles
    ensures x in Outputs(rawLines, env).Get(w) <==> w == MissingFilesTxt
  {
    OutputsHas(rawLines, env, MissingFilesTxt, x);
    OutputsHas(rawLines, env, w, x);
  }

  /** A test or snapshot is never also system-critical, and neither kind is
      recommended or listed as optional. */
  lemma {:induction false} NotNeededBeatsCritical(rawLines: seq<string>, env: Env, x: string)
    ensures var o := Outputs(rawLines, env);
      && (x in o.notNeeded ==> x !in o.critical)
      && (x in o.notNeeded || x in o.critical ==> x !in o.recommended && x !in o.optionalUnmatched)
  {
    OutputsHas(rawLines, env, NotNeededTxt, x);
    OutputsHas(rawLines, env, SystemCriticalTxt, x);
    OutputsHas(rawLines, env, RecommendedTxt, x);
    OutputsHas(rawLines, env, OptionalUnmatchedTxt, x);
  }

  /** `install_list` draws only on the recommended, system-critical and
      not-needed lists, so it never holds an invalid or missing entry. */
  lemma {:induction false} InstallDrawsOnThreeLists(rawLines: seq<string>, env: Env, x: string)
    requires x in Outputs(rawLines, env).installList
    ensures var o := Outputs(rawLines, env);
      && (x in o.recommended || x in o.critical || x in o.notNeeded)
      && x !in o.invalidEntries && x !in o.missingFiles
  {
    var o := Outputs(rawLines, env);
    InstallListed(rawLines, env, x);
    if x in o.invalidEntries {
      InvalidOnlyInvalid(rawLines, env, x, InstallListTxt);
    }
    if x in o.missingFiles {
      MissingOnlyMissing(rawLines, env, x, InstallListTxt);
    }
  }

  lemma DisjointUnionSize(a: set<string>, b: set<string>, c: set<string>)
    requires a !! b && a !! c && b !! c
    ensures |a + b + c| == |a| + |b| + |c|
  {
    assert (a + b) !! c;
  }

  lemma ElementsAsUnion(
    all: seq<string>, first: seq<string>, second: seq<string>, third: seq<string>, withSecond: bool, withThird: bool)
    requires forall x :: x in all <==> x in first || (withSecond && x in second) || (withThird && x in third)
    ensures Elements(all) ==
      Elements(first) + (if withSecond then Elements(second) else {}) + (if withThird then Elements(third) else {})
  {
  }

  lemma ElementsDisjoint(a: seq<string>, b: seq<string>)
    requires forall x :: x in a ==> x !in b
    ensures Elements(a) !! Elements(b)
  {
  }

  /** The size of a list without duplicates whose values are those of three
      pairwise disjoint lists, two of them optionally. */
  lemma {:induction false} DisjointUnionCount(
    all: seq<string>, first: seq<string>, second: seq<string>, third: seq<string>, withSecond: bool, withThird: bool)
    requires NoDuplicates(all) && NoDuplicates(first) && NoDuplicates(second) && NoDuplicates(third)
    requires forall x :: x in all <==> x in first || (withSecond && x in second) || (withThird && x in third)
    requires forall x :: x in first ==> x !in second && x !in third
    requires forall x :: x in second ==> x !in third
    ensures |all| == |first| + (if withSecond then |second| else 0) + (if withThird then |third| else 0)
  {
    var f, s, t := Elements(first), Elements(second), Elements(third);
    var s' := if withSecond then s else {};
    var t' := if withThird then t else {};
    ElementsAsUnion(all, first, second, third, withSecond, withThird);
    ElementsDisjoint(first, second);
    ElementsDisjoint(first, third);
    ElementsDisjoint(second, third);
    DisjointUnionSize(f, s', t');
    DistinctLength(all);
    DistinctLength(first);
    DistinctLength(second);
    DistinctLength(third);
  }

  /** `install_count` is the recommended count plus the system-critical count
      when those are installed plus the not-needed count when those are. */
  lemma {:induction false} InstallCount(rawLines: seq<string>, env: Env)
    ensures var o := Outputs(rawLines, env);
      |o.installList| ==
        |o.recommended|
        + (if env.opts.includeCritical || env.opts.profile == Full then |o.critical| else 0)
        + (if env.opts.includeNotNeeded || env.opts.profile == Full then |o.notNeeded| else 0)
  {
    var o := Outputs(rawLines, env);
    var withCritical := env.opts.includeCritical || env.opts.profile == Full;
    var withNotNeeded := env.opts.includeNotNeeded || env.opts.profile == Full;
    forall x
      ensures x in o.installList <==>
        x in o.recommended || (withCritical && x in o.critical) || (withNotNeeded && x in o.notNeeded)
      ensures x in o.recommended ==> x !in o.critical && x !in o.notNeeded
      ensures x in o.critical ==> x !in o.notNeeded
    {
      InstallListed(rawLines, env, x);
      NotNeededBeatsCritical(rawLines, env, x);
    }
    SummaryCounts(rawLines, env, InstallListTxt);
    SummaryCounts(rawLines, env, RecommendedTxt);
    SummaryCounts(rawLines, env, SystemCriticalTxt);
    SummaryCounts(rawLines, env, NotNeededTxt);
    DisjointUnionCount(o.installList, o.recommended, o.critical, o.notNeeded, withCritical, withNotNeeded);
  }

  /** A `safe` recommendation is an `auto` one, an `auto` recommendation is a
      `full` one, and `full` recommends every entry that reaches the step. */
  lemma {:induction false} ProfilesMonotone(rawLines: seq<string>, env: Env, x: string)
    ensures x in Outputs(rawLines, WithProfile(env, Safe)).recommended
      ==> x in Outputs(rawLines, WithProfile(env, Auto)).recommended
    ensures x in Outputs(rawLines, WithProfile(env, Auto)).recommended
      ==> x in Outputs(rawLines, WithProfile(env, Full)).recommended
    ensures x in Outputs(rawLines, WithProfile(env, Full)).recommended
      <==> x in Entries(rawLines) && ReachesRecommendation(x, env)
  {
    RecommendedListed(rawLines, WithProfile(env, Safe), x);
    RecommendedListed(rawLines, WithProfile(env, Auto), x);
    RecommendedListed(rawLines, WithProfile(env, Full), x);
  }

  /** One list comes out the same under two verdict functions that select it
      for the same entries. */
  lemma {:induction false} ColumnsByAgree(entries: seq<string>, judge1: string -> Verdict, judge2: string -> Verdict, w: ListName)
    requires forall x :: x in entries ==> (Goes(judge1(x), w) <==> Goes(judge2(x), w))
    ensures ColumnsBy(entries, judge1).Get(w) == ColumnsBy(entries, judge2).Get(w)
  {
    if entries != [] {
      var init, last := entries[..|entries| - 1], entries[|entries| - 1];
      assert last in entries;
      forall x | x in init ensures Goes(judge1(x), w) <==> Goes(judge2(x), w) {
        assert x in entries;
      }
      ColumnsByAgree(init, judge1, judge2, w);
      AppendGet(ColumnsBy(init, judge1), last, judge1(last), w);
      AppendGet(ColumnsBy(init, judge2), last, judge2(last), w);
    }
  }

  /** One list comes out the same in two runs whose verdicts select it for the same entries. */
  lemma {:induction false} ColumnAgrees(entries: seq<string>, env1: Env, env2: Env, w: ListName)
    requires forall x :: x in entries ==> (Goes(Judge(x, env1), w) <==> Goes(Judge(x, env2), w))
    ensures Columns(entries, env1).Get(w) == Columns(entries, env2).Get(w)
  {
    ColumnsByAgree(entries, JudgeIn(env1), JudgeIn(env2), w);
  }

  /** `optional_unmatched.txt` does not depend on the profile or on the two
      `--include-*` switches. */
  lemma {:induction false} OptionalIgnoresOptions(rawLines: seq<string>, env: Env, opts: Options)
    ensures Outputs(rawLines, env).optionalUnmatched == Outputs(rawLines, env.(opts := opts)).optionalUnmatched
  {
    var e := Entries(rawLines);
    ColumnAgrees(e, env, env.(opts := opts), OptionalUnmatchedTxt);
    DedupeAllGet(Columns(e, env), OptionalUnmatchedTxt);
    DedupeAllGet(Columns(e, env.(opts := opts)), OptionalUnmatchedTxt);
  }

  /** `invalid_entries.txt` does not depend on which files exist: an invalid
      entry is rejected before the existence check. */
  lemma {:induction false} InvalidIgnoresFiles(rawLines: seq<string>, env: Env, isFile: string -> bool)
    ensures Outputs(rawLines, env).invalidEntries == Outputs(rawLines, env.(isFile := isFile)).invalidEntries
  {
    var e := Entries(rawLines);
    var env2 := env.(isFile := isFile);
    assert Columns(e, env).Get(InvalidEntriesTxt) == Columns(e, env2).Get(InvalidEntriesTxt) by {
      forall x | x in e
        ensures Goes(Judge(x, env), InvalidEntriesTxt) <==> Goes(Judge(x, env2), InvalidEntriesTxt)
      {
        InvalidVerdictIgnoresFiles(x, env, isFile);
      }
      ColumnAgrees(e, env, env2, InvalidEntriesTxt);
    }
    DedupeAllGet(Columns(e, env), InvalidEntriesTxt);
    DedupeAllGet(Columns(e, env2), InvalidEntriesTxt);
  }

  lemma {:induction false} InvalidVerdictIgnoresFiles(x: string, env: Env, isFile: string -> bool)
    ensures Judge(x, env).Invalid? <==> Judge(x, env.(isFile := isFile)).Invalid?
  {
  }

  /** The six category lists before deduplication: each entry adds to at most
      one of them unless the profile is `full`. */
  function CategoryTotal(l: Lists): nat {
    |l.recommended| + |l.critical| + |l.notNeeded| + |l.optionalUnmatched| + |l.invalidEntries| + |l.missingFiles|
  }

  lemma {:induction false} ColumnsByCategoryTotal(entries: seq<string>, judge: string -> Verdict)
    requires forall x :: x in entries ==> !(judge(x).Candidate? && judge(x).optional && judge(x).recommend)
    ensures CategoryTotal(ColumnsBy(entries, judge)) <= |entries|
  {
    if entries != [] {
      var init, last := entries[..|entries| - 1], entries[|entries| - 1];
      assert last in entries;
      forall x | x in init ensures !(judge(x).Candidate? && judge(x).optional && judge(x).recommend) {
        assert x in entries;
      }
      ColumnsByCategoryTotal(init, judge);
      AppendCategoryTotal(ColumnsBy(init, judge), last, judge(last));
    }
  }

  lemma {:induction false} ColumnsCategoryTotal(entries: seq<string>, env: Env)
    requires env.opts.profile != Full
    ensures CategoryTotal(Columns(entries, env)) <= |entries|
  {
    forall x | x in entries
      ensures !(JudgeIn(env)(x).Candidate? && JudgeIn(env)(x).optional && JudgeIn(env)(x).recommend)
    {
      NoOverlapUnlessFull(x, env);
    }
    ColumnsByCategoryTotal(entries, JudgeIn(env));
  }

  /** Only `full` both recommends an entry and lists it as optional. */
  lemma {:induction false} NoOverlapUnlessFull(x: string, env: Env)
    requires env.opts.profile != Full
    ensures !(Judge(x, env).Candidate? && Judge(x, env).optional && Judge(x, env).recommend)
  {
  }

  lemma {:induction false} AppendCategoryTotal(acc: Lists, rel: string, v: Verdict)
    requires !(v.Candidate? && v.optional && v.recommend)
    ensures CategoryTotal(Append(acc, rel, v)) <= CategoryTotal(acc) + 1
  {
  }

  /** Unless the profile is `full`, the six category counts add up to at
      most `total_in_manifest`; duplicates and entries that reach no list make
      the sum smaller. */
  lemma {:induction false} CountsWithinTotal(rawLines: seq<string>, env: Env)
    requires env.opts.profile != Full
    ensures CategoryTotal(Outputs(rawLines, env)) <= |Entries(rawLines)|
  {
    var cols := Columns(Entries(rawLines), env);
    ColumnsCategoryTotal(Entries(rawLines), env);
    DedupedNotLonger(cols.recommended);
    DedupedNotLonger(cols.critical);
    DedupedNotLonger(cols.notNeeded);
    DedupedNotLonger(cols.optionalUnmatched);
    DedupedNotLonger(cols.invalidEntries);
    DedupedNotLonger(cols.missingFiles);
  }

  /** Each `*_count` of the summary is the number of distinct entries the
      check selected for that list, and `total_in_manifest` counts every kept
      line, duplicates, invalid and missing entries included. */
  lemma {:induction false} SummaryCounts(rawLines: seq<string>, env: Env, w: ListName)
    ensures var cols := Columns(Entries(rawLines), env);
      |Outputs(rawLines, env).Get(w)| == |Elements(cols.Get(w))| && NoDuplicates(Outputs(rawLines, env).Get(w))
  {
    var cols := Columns(Entries(rawLines), env);
    DedupeAllGet(cols, w);
    DedupedLength(cols.Get(w));
    DedupedNoDuplicates(cols.Get(w));
  }

  /** The entries are the stripped kept lines: nothing else is counted. */
  lemma {:induction false} EntriesAreKeptLines(rawLines: seq<string>, x: string)
    ensures x in Entries(rawLines) <==> exists raw :: raw in rawLines && Kept(raw) && Strip(raw) == x
    ensures |Entries(rawLines)| <= |rawLines|
  {
    if rawLines != [] {
      var init, last := rawLines[..|rawLines| - 1], rawLines[|rawLines| - 1];
      EntriesAreKeptLines(init, x);
      assert rawLines == init + [last];
      if x in Entries(rawLines) && !(x in Entries(init)) {
        assert last in rawLines && Kept(last) && Strip(last) == x;
      }
      if exists raw :: raw in rawLines && Kept(raw) && Strip(raw) == x {
        var raw :| raw in rawLines && Kept(raw) && Strip(raw) == x;
        if raw != last {
          assert raw in init;
        }
      }
    }
  }

  /** `detected_components` lists the detected names and `missing_components`
      the others: disjoint, together exactly `COMPONENTS`, seven in all. */
  lemma {:induction false} ComponentPartition(detected: map<string, bool>, c: Component)
    ensures var d, m := ComponentsWhere(COMPONENTS, detected, true), ComponentsWhere(COMPONENTS, detected, false);
      && (c in d ==> c !in m)
      && (c in d || c in m <==> c in COMPONENTS)
      && |d| + |m| == |COMPONENTS|
  {
    ComponentsWhereSplit(COMPONENTS, detected);
  }

  lemma {:induction false} ComponentsWhereSplit(names: seq<Component>, detected: map<string, bool>)
    ensures |ComponentsWhere(names, detected, true)| + |ComponentsWhere(names, detected, false)| == |names|
  {
    if names != [] {
      ComponentsWhereSplit(names[1..], detected);
    }
  }

  /** `r` is `names` with some elements left out: same elements, same order. */
  predicate SubsequenceOf(r: seq<Component>, names: seq<Component>)
    decreases |names|
  {
    if r == [] then true
    else if names == [] then false
    else if r[0] == names[0] then SubsequenceOf(r[1..], names[1..])
    else SubsequenceOf(r, names[1..])
  }

  lemma {:induction false} ComponentsWhereOrdered(names: seq<Component>, detected: map<string, bool>, want: bool)
    ensures SubsequenceOf(ComponentsWhere(names, detected, want), names)
  {
    if names != [] {
      var rest := ComponentsWhere(names[1..], detected, want);
      ComponentsWhereOrdered(names[1..], detected, want);
      if Lookup(detected, names[0]) == want {
        assert ([names[0]] + rest)[1..] == rest;
      } else if rest != [] {
        assert rest[0] in rest;
      }
    }
  }

  /** Both component lists follow the order of `COMPONENTS`. */
  lemma ComponentListsOrdered(detected: map<string, bool>)
    ensures SubsequenceOf(ComponentsWhere(COMPONENTS, detected, true), COMPONENTS)
    ensures SubsequenceOf(ComponentsWhere(COMPONENTS, detected, false), COMPONENTS)
  {
    ComponentsWhereOrdered(COMPONENTS, detected, true);
    ComponentsWhereOrdered(COMPONENTS, detected, false);
  }

  /** A run with every file present and no component detected. */
  function NothingDetected(profile: Profile): Env {
    Env(Options(profile, false, false), map[], _ => true)
  }

  /** A manifest of one kept line has that line as its only entry. */
  lemma {:induction false} OneEntry(rel: string)
    requires Strip(rel) == rel && rel != [] && !StartsWith(rel, "#")
    ensures Entries([rel]) == [rel]
  {
    EntriesKeep([], rel);
    assert [] + [rel] == [rel];
  }

  /** A manifest of one kept line: each list holds the entry exactly when its
      verdict sends it there (deduplicating one entry changes nothing). */
  lemma {:induction false} SingleLine(rel: string, env: Env, w: ListName)
    requires Strip(rel) == rel && rel != [] && !StartsWith(rel, "#")
    ensures Outputs([rel], env).Get(w) == if Goes(Judge(rel, env), w) then [rel] else []
  {
    OneEntry(rel);
    var empty := Lists([], [], [], [], [], [], []);
    ColumnsSnoc([], rel, env);
    assert [] + [rel] == [rel];
    assert Columns([], env) == empty;
    var col := Columns([rel], env);
    AppendGet(empty, rel, Judge(rel, env), w);
    DedupeAllGet(col, w);
    assert NoDuplicates(col.Get(w));
    DedupedOfDistinct(col.Get(w));
  }

  lemma SkillPathValid()
    ensures IsValidRelativePath("skills/code-agent/x")
  {
    DotFreeIsValid("skills/code-agent/x");
  }

  lemma SkillPathLower()
    ensures Lower("skills/code-agent/x") == "skills/code-agent/x"
  {
    LowerOfLowercase("skills/code-agent/x");
  }

  lemma SkillPathFiltersPass()
    ensures !IsNotNeeded("skills/code-agent/x") && !IsSystemCritical("skills/code-agent/x")
  {
    var rel := "skills/code-agent/x";
    SkillPathLower();
    MissingCharNotContained(rel, "/__tests__/", '_');
    EndsWithMismatch(rel, ".spec.ts");
    EndsWithMismatch(rel, ".snap");
    EndsWithMismatch(rel, ".ts");
    EndsWithMismatch(rel, ".js");
    EndsWithMismatch(rel, ".py");
    EndsWithMismatch(rel, ".sh");
    StartsWithMismatch(rel, "roo-code/src/", 0);
    StartsWithMismatch(rel, "roo-code/webview-ui/src/components/", 0);
  }

  lemma SkillPathPrefix()
    ensures StartsWith("skills/code-agent/x", "skills/code-agent/")
  {
    assert "skills/code-agent/x" == "skills/code-agent/" + "x";
  }

  lemma SkillPathComponent()
    ensures ClassifyComponent("skills/code-agent/x") == SkillCodeAgent
  {
    SkillPathLower();
    SkillPathPrefix();
    MissingCharNotContained("skills/code-agent/x", "/roo-code/", 'r');
    CodeAgentPath("skills/code-agent/x");
  }

  /** The path facts behind the first scenario. */
  lemma SkillPathVerdict()
    ensures Judge("skills/code-agent/x", NothingDetected(Full)) == Candidate(true, true)
  {
    SkillPathValid();
    SkillPathFiltersPass();
    SkillPathComponent();
  }

  /** A single entry that is both recommended and optional is counted twice
      by the categories. */
  lemma {:induction false} CountedTwice(rel: string, env: Env)
    requires Strip(rel) == rel && rel != [] && !StartsWith(rel, "#")
    requires Judge(rel, env) == Candidate(true, true)
    ensures var o := Outputs([rel], env);
      && o.recommended == [rel]
      && o.optionalUnmatched == [rel]
      && CategoryTotal(o) > |Entries([rel])|
  {
    OneEntry(rel);
    SingleLine(rel, env, RecommendedTxt);
    SingleLine(rel, env, OptionalUnmatchedTxt);
  }

  lemma SkillPathKept()
    ensures var rel := "skills/code-agent/x";
      Strip(rel) == rel && rel != [] && !StartsWith(rel, "#")
  {
    StripOfVisibleEnds("skills/code-agent/x");
  }

  /** Scenario: under `full` an entry can be both recommended and listed as
      optional, so the six category counts can exceed `total_in_manifest`. */
  lemma FullProfileOverlap(rel: string)
    requires rel == "skills/code-agent/x"
    ensures var o := Outputs([rel], NothingDetected(Full));
      && o.recommended == [rel]
      && o.optionalUnmatched == [rel]
      && CategoryTotal(o) > |Entries([rel])|
  {
    SkillPathKept();
    SkillPathVerdict();
    CountedTwice(rel, NothingDetected(Full));
  }

  lemma PlainPathValid()
    ensures IsValidRelativePath("x")
  {
    DotFreeIsValid("x");
  }

  lemma PlainPathFiltersPass()
    ensures !IsNotNeeded("x") && !IsSystemCritical("x")
  {
    MissingCharNotContained("x", "/__tests__/", '/');
    assert Lower("x") == "x";
  }

  lemma PlainPathComponent()
    ensures ClassifyComponent("x") == General
  {
    var rel := "x";
    assert Lower(rel) == rel;
    MissingCharNotContained(rel, "/roo-code/", '/');
    MissingCharNotContained(rel, "/skills/code-agent/", '/');
    MissingCharNotContained(rel, "/aidrax-core-skills/skills/code-agent/", '/');
    MissingCharNotContained(rel, "/skills/ip-config-manager/", '/');
    MissingCharNotContained(rel, "/aidrax-core-skills/skills/ip-config-manager/", '/');
    MissingCharNotContained(rel, "aidrax_prompt_und_agenten/", '/');
    MissingCharNotContained(rel, "/aidrax-agent/standards/", '/');
    MissingCharNotContained(rel, "/aidrax-enterprise/prompts/", '/');
  }

  lemma PlainPathNotPrompt()
    ensures !IsPromptContent("x")
  {
    var rel := "x";
    assert Lower(rel) == rel;
    assert Split(rel, '/') == [rel];
    assert BaseName(rel) == rel;
    MissingCharNotContained(rel, "/prompts/", '/');
    MissingCharNotContained(rel, "/templates/", '/');
    MissingCharNotContained(rel, "prompt", 'p');
  }

  /** The path facts behind the second scenario. */
  lemma PlainPathVerdict()
    ensures Judge("x", NothingDetected(Safe)) == Candidate(false, false)
  {
    PlainPathValid();
    PlainPathFiltersPass();
    PlainPathComponent();
    PlainPathNotPrompt();
  }

  /** Scenario: under `safe` an existing entry of no particular component that
      does not look like a prompt lands in no list at all, although it is
      counted in `total_in_manifest`. */
  lemma SafeProfileDropsEntry(w: ListName)
    ensures Outputs(["x"], NothingDetected(Safe)).Get(w) == []
    ensures |Entries(["x"])| == 1
  {
    StripOfVisibleEnds("x");
    PlainPathVerdict();
    OneEntry("x");
    SingleLine("x", NothingDetected(Safe), w);
  }
}
