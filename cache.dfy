/** The bpej.json cache step of the calculator: whether the local price table is used,
    whether bpej_fetch.php is run to refresh it, what the run is reported as, and which
    table is loaded afterwards. The clock and the file system come in as values: the
    file's age in seconds, its text and the table its text decodes to. */
module CacheRefresh {
  import opened Options
  import opened Numeric
  import opened Input

  /** Code -> price, as bpej.json holds it. */
  type Table = map<string, Decimal>

  /** The age (in seconds) above which a stored file counts as outdated. */
  const MaxAge := 24 * 3600

  /** bpej.json as the calculator finds it: absent, or present with its age (now minus
      its modification time), its text, and the table json_decode makes of the text
      (None when the text is not a JSON object). */
  datatype CacheFile = Absent | Present(age: int, text: string, table: Option<Table>)

  /** What the step does before loading the file. */
  datatype Action =
    | NoCache       // the cache is switched off: nothing is fetched or loaded
    | KeepFile      // the stored file is loaded as it is
    | Refetch       // bpej_fetch.php runs over an existing file, then the hashes are compared
    | FetchMissing  // there is no file: bpej_fetch.php runs without asking

  /** The action and the index of the next unread line of input. */
  datatype Decision = Decision(action: Action, next: nat)

  /** "Use local BPEJ cache file? [Y/n]": an empty reply means 'y', and only an 'n'
      (in either case) switches the cache off. */
  function UseLocalCache(reply: string): (use: bool)
    ensures !use <==> IsNo(reply)
  {
    var answer := if reply == "" then "y" else reply;
    !IsNo(answer)
  }

  /** The decision of bonita_calculator.php:187-226, reading its answers from line
      `from` of the input on. */
  function Decide(stdin: seq<string>, from: nat, file: CacheFile, forceFresh: bool): (d: Decision)
    ensures from < d.next <= from + 2
  {
    if !UseLocalCache(Answer(stdin, from)) then Decision(NoCache, from + 1)
    else
      match file
      case Absent => Decision(FetchMissing, from + 1)
      case Present(age, _, _) =>
        var outdated := age > MaxAge;
        if !forceFresh && !outdated then Decision(KeepFile, from + 1)
        else if !forceFresh && outdated then
          if IsYes(Answer(stdin, from + 1)) then Decision(Refetch, from + 2)
          else Decision(KeepFile, from + 2)
        else Decision(Refetch, from + 1)
  }

  /** The decision table: the cache is on unless the first answer is no; a missing file
      is always fetched; a forced run always refetches; an outdated file is refetched
      when the second answer is yes; otherwise the stored file is kept. The second
      question is asked (a second line read) exactly when the file is present,
      outdated and the run not forced. */
  lemma DecisionTable(stdin: seq<string>, from: nat, file: CacheFile, forceFresh: bool)
    ensures var d := Decide(stdin, from, file, forceFresh);
      var on := !IsNo(Answer(stdin, from));
      var asked := on && file.Present? && !forceFresh && file.age > MaxAge;
      && (d.action == NoCache <==> !on)
      && (d.action == FetchMissing <==> on && file.Absent?)
      && (d.action == Refetch <==>
            on && file.Present? && (forceFresh || (asked && IsYes(Answer(stdin, from + 1)))))
      && (d.action == KeepFile <==>
            on && file.Present? && !forceFresh && (file.age <= MaxAge || !IsYes(Answer(stdin, from + 1))))
      && (d.next == if asked then from + 2 else from + 1)
  {
  }

  /** At the end of the input every answer is empty, so the defaults apply: the cache
      is used and an outdated file is refetched. */
  lemma DefaultsAtEndOfInput(stdin: seq<string>, from: nat, file: CacheFile, forceFresh: bool)
    requires |stdin| <= from
    ensures Decide(stdin, from, file, forceFresh).action ==
      if file.Absent? then FetchMissing
      else if forceFresh || file.age > MaxAge then Refetch
      else KeepFile
  {
  }

  /** loadBpejCacheFile($path) ?? []: nothing when the file is absent, empty or "0" (both
      falsy in PHP), or does not decode to an object; otherwise its table. */
  function Load(file: CacheFile): (t: Table)
    ensures t != map[] ==> file.Present? && file.table == Some(t)
  {
    match file
    case Absent => map[]
    case Present(_, text, table) => if text == "" || text == "0" then map[] else table.GetOr(map[])
  }

  /** What running bpej_fetch.php left behind: its exit status and the file afterwards. */
  datatype FetchRun = FetchRun(status: int, after: CacheFile)

  /** The messages the step prints about a fetch. */
  datatype FetchReport =
    | NotFetched
    | FetchFailed(status: int)   // "Error running bpej_fetch.php, code=..."
    | Fetched                    // "bpej_fetch.php finished." for a missing file
    | Unchanged                  // "No changes in bpej.json file (hash is the same)."
    | Changed                    // "bpej.json has changed ..."

  /** sha256File($path) ?? '(none)': two states of the file hash alike exactly when both
      are absent or both hold the same text. */
  function Fingerprint(file: CacheFile): Option<string>
  {
    match file
    case Absent => None
    case Present(_, text, _) => Some(text)
  }

  /** The report after refetching over an existing file (bonita_calculator.php:228-244). */
  function Compare(before: CacheFile, run: FetchRun): (r: FetchReport)
    ensures r.FetchFailed? <==> run.status != 0
    ensures r == Unchanged <==> run.status == 0 && Fingerprint(before) == Fingerprint(run.after)
    ensures r == Changed <==> run.status == 0 && Fingerprint(before) != Fingerprint(run.after)
  {
    if run.status != 0 then FetchFailed(run.status)
    else if Fingerprint(before) == Fingerprint(run.after) then Unchanged
    else Changed
  }

  /** The outcome of the cache step: what was reported, the table loaded, and the next
      unread line of input. */
  datatype CacheOutcome = CacheOutcome(report: FetchReport, cache: Table, next: nat)

  /** The cache step of bonita_calculator.php:187-263; `run` is what bpej_fetch.php
      leaves behind if the step runs it. */
  function CacheStep(stdin: seq<string>, from: nat, file: CacheFile, forceFresh: bool, run: FetchRun): (o: CacheOutcome)
    ensures o.next == Decide(stdin, from, file, forceFresh).next
  {
    var d := Decide(stdin, from, file, forceFresh);
    match d.action
    case NoCache => CacheOutcome(NotFetched, map[], d.next)
    case KeepFile => CacheOutcome(NotFetched, Load(file), d.next)
    case FetchMissing =>
      CacheOutcome(if run.status != 0 then FetchFailed(run.status) else Fetched, Load(run.after), d.next)
    case Refetch => CacheOutcome(Compare(file, run), Load(run.after), d.next)
  }

  /** Whether the step runs bpej_fetch.php. */
  predicate Fetches(a: Action) { a == Refetch || a == FetchMissing }

  /** Every path with the cache on ends by loading the file as it then is: the fetched
      file when the script ran (whatever its exit status, so a failed fetch does not
      stop the run), the stored file otherwise. With the cache off nothing is loaded. */
  lemma AlwaysLoads(stdin: seq<string>, from: nat, file: CacheFile, forceFresh: bool, run: FetchRun)
    ensures var a := Decide(stdin, from, file, forceFresh).action;
      var o := CacheStep(stdin, from, file, forceFresh, run);
      && (a == NoCache ==> o.cache == map[] && o.report == NotFetched)
      && (Fetches(a) ==> o.cache == Load(run.after))
      && (a == KeepFile ==> o.cache == Load(file) && o.report == NotFetched)
      && (Fetches(a) && run.status != 0 ==> o.report == FetchFailed(run.status))
  {
  }

  /** What the script does matters only when the step runs it. */
  lemma RunIgnoredUnlessFetched(stdin: seq<string>, from: nat, file: CacheFile, forceFresh: bool, run1: FetchRun, run2: FetchRun)
    requires !Fetches(Decide(stdin, from, file, forceFresh).action)
    ensures CacheStep(stdin, from, file, forceFresh, run1) == CacheStep(stdin, from, file, forceFresh, run2)
  {
  }
}
