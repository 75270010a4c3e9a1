/**
 The classification engine of the recommender: every manifest line is
 stripped, skipped if blank or a comment, counted, and then put through a
 fixed-priority pipeline (invalid, missing, not needed, system-critical,
 recommendation) that appends it to some of seven report lists. The lists are
 then deduplicated and summarised.

 The two facts the program reads from disk are parameters here: `isFile(rel)`
 says whether `source_dir / rel` is a file, and `detected` is what the
 component scan returned.
 */
module Recommend {
  import opened Text
  import opened Rules
  import opened Dedupe

  datatype Profile = Safe | Auto | Full

  datatype Options = Options(profile: Profile, includeCritical: bool, includeNotNeeded: bool)

  /** Everything one run depends on besides the manifest text. */
  datatype Env = Env(opts: Options, detected: map<string, bool>, isFile: string -> bool)

  /** `detected.get(component, False)`: the detection map is keyed by component name. */
  function Lookup(detected: map<string, bool>, component: Component): bool {
    if component.Name() in detected then detected[component.Name()] else false
  }

  /** The seven report lists, named after the files they are written to. */
  datatype ListName =
    | RecommendedTxt | SystemCriticalTxt | NotNeededTxt | OptionalUnmatchedTxt
    | InstallListTxt | InvalidEntriesTxt | MissingFilesTxt

  datatype Lists = Lists(
    recommended: seq<string>,
    critical: seq<string>,
    notNeeded: seq<string>,
    optionalUnmatched: seq<string>,
    installList: seq<string>,
    invalidEntries: seq<string>,
    missingFiles: seq<string>)
  {
    function Get(w: ListName): seq<string> {
      match w
      case RecommendedTxt => recommended
      case SystemCriticalTxt => critical
      case NotNeededTxt => notNeeded
      case OptionalUnmatchedTxt => optionalUnmatched
      case InstallListTxt => installList
      case InvalidEntriesTxt => invalidEntries
      case MissingFilesTxt => missingFiles
    }
  }

  /** A manifest line that is neither blank nor a `#` comment once stripped. */
  predicate Kept(raw: string) {
    var rel := Strip(raw);
    rel != [] && !StartsWith(rel, "#")
  }

  /** The stripped kept lines, in manifest order: what the loop classifies. */
  function Entries(rawLines: seq<string>): seq<string> {
    if rawLines == [] then []
    else
      var last := rawLines[|rawLines| - 1];
      Entries(rawLines[..|rawLines| - 1]) + if Kept(last) then [Strip(last)] else []
  }

  /** The outcome of the pipeline for one entry. */
  datatype Verdict =
    | Invalid
    | Missing
    | NotNeeded(install: bool)
    | Critical(install: bool)
    | Candidate(optional: bool, recommend: bool)

  /** Whether `profile` recommends an entry that reached the recommendation step. */
  predicate Recommends(profile: Profile, component: Component, componentDetected: bool, rel: string) {
    match profile
    case Full => true
    case Auto => componentDetected || component == General
    case Safe => (componentDetected || component == General) && IsPromptContent(rel)
  }

  /** The priority pipeline for one entry, first rule first. */
  function Judge(rel: string, env: Env): Verdict {
    if !IsValidRelativePath(rel) then Invalid
    else if !env.isFile(rel) then Missing
    else if IsNotNeeded(rel) then NotNeeded(env.opts.includeNotNeeded || env.opts.profile == Full)
    else if IsSystemCritical(rel) then Critical(env.opts.includeCritical || env.opts.profile == Full)
    else
      var component := ClassifyComponent(rel);
      var componentDetected := Lookup(env.detected, component);
      Candidate(
        component != General && !componentDetected,
        Recommends(env.opts.profile, component, componentDetected, rel))
  }

  /** Which lists an entry with verdict `v` is appended to. */
  predicate Goes(v: Verdict, w: ListName) {
    match w
    case RecommendedTxt => v.Candidate? && v.recommend
    case SystemCriticalTxt => v.Critical?
    case NotNeededTxt => v.NotNeeded?
    case OptionalUnmatchedTxt => v.Candidate? && v.optional
    case InstallListTxt =>
      || (v.NotNeeded? && v.install)
      || (v.Critical? && v.install)
      || (v.Candidate? && v.recommend)
    case InvalidEntriesTxt => v.Invalid?
    case MissingFilesTxt => v.Missing?
  }

  /** The lists after appending `rel` to each list its verdict `v` selects. */
  function Append(acc: Lists, rel: string, v: Verdict): Lists {
    Lists(
      acc.recommended + (if Goes(v, RecommendedTxt) then [rel] else []),
      acc.critical + (if Goes(v, SystemCriticalTxt) then [rel] else []),
      acc.notNeeded + (if Goes(v, NotNeededTxt) then [rel] else []),
      acc.optionalUnmatched + (if Goes(v, OptionalUnmatchedTxt) then [rel] else []),
      acc.installList + (if Goes(v, InstallListTxt) then [rel] else []),
      acc.invalidEntries + (if Goes(v, InvalidEntriesTxt) then [rel] else []),
      acc.missingFiles + (if Goes(v, MissingFilesTxt) then [rel] else []))
  }

  /** The verdicts of one run, as a function of the entry. */
  function JudgeIn(env: Env): string -> Verdict {
    rel => Judge(rel, env)
  }

  /** The seven lists before deduplication, for the given entries in order,
      when each entry's verdict is `judge(entry)`. */
  function ColumnsBy(entries: seq<string>, judge: string -> Verdict): Lists {
    if entries == [] then Lists([], [], [], [], [], [], [])
    else
      var last := entries[|entries| - 1];
      Append(ColumnsBy(entries[..|entries| - 1], judge), last, judge(last))
  }

  /** The seven lists before deduplication, for the given entries in order. */
  function Columns(entries: seq<string>, env: Env): Lists {
    ColumnsBy(entries, JudgeIn(env))
  }

  function DedupeAll(l: Lists): Lists {
    Lists(Deduped(l.recommended), Deduped(l.critical), Deduped(l.notNeeded), Deduped(l.optionalUnmatched),
      Deduped(l.installList), Deduped(l.invalidEntries), Deduped(l.missingFiles))
  }

  /** The seven lists as written to their files. */
  function Outputs(rawLines: seq<string>, env: Env): Lists {
    DedupeAll(Columns(Entries(rawLines), env))
  }

  /** A blank or comment line adds no entry. */
  lemma EntriesSkip(rawLines: seq<string>, raw: string)
    requires !Kept(raw)
    ensures Entries(rawLines + [raw]) == Entries(rawLines)
  {
    assert (rawLines + [raw])[..|rawLines|] == rawLines;
  }

  /** Any other line adds its stripped text as the next entry. */
  lemma EntriesKeep(rawLines: seq<string>, raw: string)
    requires Kept(raw)
    ensures Entries(rawLines + [raw]) == Entries(rawLines) + [Strip(raw)]
  {
    assert (rawLines + [raw])[..|rawLines|] == rawLines;
  }

  lemma ColumnsSnoc(entries: seq<string>, rel: string, env: Env)
    ensures Columns(entries + [rel], env) == Append(Columns(entries, env), rel, Judge(rel, env))
  {
    assert (entries + [rel])[..|entries|] == entries;
  }

  /** The checks of the loop body for one entry, in the program's order: each
      list the entry belongs to gets it appended, and the others are left as
      they are. */
  method ClassifyEntry(rel: string, env: Env, acc: Lists) returns (lists: Lists)
    ensures lists == Append(acc, rel, Judge(rel, env))
  {
    var opts := env.opts;
    lists := acc;

    if !IsValidRelativePath(rel) {
      assert Judge(rel, env) == Invalid;
      lists := lists.(invalidEntries := lists.invalidEntries + [rel]);
      AppendOne(acc, rel, Invalid);
      return;
    }

    if !env.isFile(rel) {
      assert Judge(rel, env) == Missing;
      lists := lists.(missingFiles := lists.missingFiles + [rel]);
      AppendOne(acc, rel, Missing);
      return;
    }

    var component := ClassifyComponent(rel);
    var componentDetected := Lookup(env.detected, component);
    var noncritical := !IsSystemCritical(rel);
    var useful := !IsNotNeeded(rel);

    if IsNotNeeded(rel) {
      assert Judge(rel, env) == NotNeeded(opts.includeNotNeeded || opts.profile == Full);
      lists := lists.(notNeeded := lists.notNeeded + [rel]);
      if opts.includeNotNeeded || opts.profile == Full {
        lists := lists.(installList := lists.installList + [rel]);
      }
      AppendOne(acc, rel, NotNeeded(opts.includeNotNeeded || opts.profile == Full));
      return;
    }

    if IsSystemCritical(rel) {
      assert Judge(rel, env) == Critical(opts.includeCritical || opts.profile == Full);
      lists := lists.(critical := lists.critical + [rel]);
      if opts.includeCritical || opts.profile == Full {
        lists := lists.(installList := lists.installList + [rel]);
      }
      AppendOne(acc, rel, Critical(opts.includeCritical || opts.profile == Full));
      return;
    }

    var shouldInstall := false;
    if opts.profile == Full {
      shouldInstall := true;
    } else if opts.profile == Auto {
      shouldInstall := componentDetected || component == General;
    } else if opts.profile == Safe {
      shouldInstall := (componentDetected || component == General) && IsPromptContent(rel);
    }
    assert shouldInstall == Recommends(opts.profile, component, componentDetected, rel);
    ghost var v := Candidate(component != General && !componentDetected, shouldInstall);
    assert Judge(rel, env) == v;

    if component != General && !componentDetected && noncritical && useful {
      lists := lists.(optionalUnmatched := lists.optionalUnmatched + [rel]);
    }

    if shouldInstall {
      lists := lists.(recommended := lists.recommended + [rel]);
      lists := lists.(installList := lists.installList + [rel]);
    }
    AppendCandidate(acc, rel, v.optional, v.recommend);
  }

  /** Appending for a verdict that is not a candidate touches its own list and,
      when the verdict says so, the install list. */
  lemma AppendOne(acc: Lists, rel: string, v: Verdict)
    requires !v.Candidate?
    ensures Append(acc, rel, v) ==
      match v
      case Invalid => acc.(invalidEntries := acc.invalidEntries + [rel])
      case Missing => acc.(missingFiles := acc.missingFiles + [rel])
      case NotNeeded(install) =>
        acc.(notNeeded := acc.notNeeded + [rel],
             installList := acc.installList + (if install then [rel] else []))
      case Critical(install) =>
        acc.(critical := acc.critical + [rel],
             installList := acc.installList + (if install then [rel] else []))
  {
    assert acc.recommended + [] == acc.recommended;
    assert acc.critical + [] == acc.critical;
    assert acc.notNeeded + [] == acc.notNeeded;
    assert acc.optionalUnmatched + [] == acc.optionalUnmatched;
    assert acc.installList + [] == acc.installList;
    assert acc.invalidEntries + [] == acc.invalidEntries;
    assert acc.missingFiles + [] == acc.missingFiles;
  }

  lemma AppendCandidate(acc: Lists, rel: string, optional: bool, recommend: bool)
    ensures Append(acc, rel, Candidate(optional, recommend)) ==
      Lists(
        acc.recommended + (if recommend then [rel] else []),
        acc.critical, acc.notNeeded,
        acc.optionalUnmatched + (if optional then [rel] else []),
        acc.installList + (if recommend then [rel] else []),
        acc.invalidEntries, acc.missingFiles)
  {
    assert acc.critical + [] == acc.critical;
    assert acc.notNeeded + [] == acc.notNeeded;
    assert acc.invalidEntries + [] == acc.invalidEntries;
    assert acc.missingFiles + [] == acc.missingFiles;
  }

  /** The per-line loop of the program: strip, skip blank lines and comments,
      count the rest, and classify each entry. */
  method Analyze(rawLines: seq<string>, env: Env) returns (lists: Lists, totalNonempty: nat)
    ensures totalNonempty == |Entries(rawLines)|
    ensures lists == Columns(Entries(rawLines), env)
  {
    lists := Lists([], [], [], [], [], [], []);
    totalNonempty := 0;

    for i := 0 to |rawLines|
      invariant totalNonempty == |Entries(rawLines[..i])|
      invariant lists == Columns(Entries(rawLines[..i]), env)
    {
      var raw := rawLines[i];
      assert rawLines[..i + 1] == rawLines[..i] + [raw];
      var rel := Strip(raw);
      if rel == [] {
        EntriesSkip(rawLines[..i], raw);
        continue;
      }
      if StartsWith(rel, "#") {
        EntriesSkip(rawLines[..i], raw);
        continue;
      }
      EntriesKeep(rawLines[..i], raw);
      totalNonempty := totalNonempty + 1;
      ColumnsSnoc(Entries(rawLines[..i]), rel, env);
      lists := ClassifyEntry(rel, env, lists);
    }

    assert rawLines[..|rawLines|] == rawLines;
  }

  /** `detected_components` or `missing_components`: the components in `names`
      whose detection flag is `want`, in the order of `names`. */
  function ComponentsWhere(names: seq<Component>, detected: map<string, bool>, want: bool): (r: seq<Component>)
    ensures forall c :: c in r <==> c in names && Lookup(detected, c) == want
    ensures |r| <= |names|
  {
    if names == [] then []
    else
      var rest := ComponentsWhere(names[1..], detected, want);
      if Lookup(detected, names[0]) == want then [names[0]] + rest else rest
  }

  /** The structured analysis document (`analysis.json`). */
  datatype Summary = Summary(
    profile: Profile,
    totalInManifest: nat,
    recommendedCount: nat,
    systemCriticalCount: nat,
    notNeededCount: nat,
    optionalUnmatchedCount: nat,
    installCount: nat,
    invalidEntryCount: nat,
    missingFileCount: nat,
    detectedComponents: seq<Component>,
    missingComponents: seq<Component>,
    includeCritical: bool,
    includeNotNeeded: bool)

  /** The summary of a run whose deduplicated lists are `lists`. */
  function Summarize(opts: Options, totalNonempty: nat, lists: Lists, detected: map<string, bool>): (s: Summary)
    ensures forall c :: c in s.detectedComponents <==> Lookup(detected, c)
    ensures forall c :: c in s.missingComponents <==> !Lookup(detected, c)
  {
    ComponentsListed();
    Summary(
      opts.profile,
      totalNonempty,
      |lists.recommended|,
      |lists.critical|,
      |lists.notNeeded|,
      |lists.optionalUnmatched|,
      |lists.installList|,
      |lists.invalidEntries|,
      |lists.missingFiles|,
      ComponentsWhere(COMPONENTS, detected, true),
      ComponentsWhere(COMPONENTS, detected, false),
      opts.includeCritical,
      opts.includeNotNeeded)
  }

  /** The whole analysis of one manifest: split into lines, classify, dedupe
      every list, summarise. */
  method Run(manifestText: string, env: Env) returns (lists: Lists, summary: Summary)
    ensures lists == Outputs(SplitLines(manifestText), env)
    ensures summary == Summarize(env.opts, |Entries(SplitLines(manifestText))|, lists, env.detected)
  {
    var rawLines := SplitLines(manifestText);
    var raw, totalNonempty := Analyze(rawLines, env);
    var recommended := Dedupe.Dedupe(raw.recommended);
    var critical := Dedupe.Dedupe(raw.critical);
    var notNeeded := Dedupe.Dedupe(raw.notNeeded);
    var optionalUnmatched := Dedupe.Dedupe(raw.optionalUnmatched);
    var installList := Dedupe.Dedupe(raw.installList);
    var invalidEntries := Dedupe.Dedupe(raw.invalidEntries);
    var missingFiles := Dedupe.Dedupe(raw.missingFiles);
    lists := Lists(recommended, critical, notNeeded, optionalUnmatched, installList, invalidEntries, missingFiles);
    summary := Summarize(env.opts, totalNonempty, lists, env.detected);
  }
}
