/** What the `ci-history` branch holds: run records, the archive index, and a rotation of a year. */
module HistoryFiles {
  import opened Wrappers

  /** A repository path, as its components. */
  type Path = seq<string>

  type Tree = map<Path, File>

  datatype Tombstone = NoTombstone | TextTombstone | OtherTombstone

  /** The fields of a JSON object that the history reads; `None` is a missing or ill-typed field, and
      `started` and `created` are the years of those times. */
  datatype Record = Record(
    schema: Option<int>, workflow: Option<string>, runId: Option<int>, jobs: Option<nat>,
    tombstone: Tombstone, started: Option<int>, created: Option<int>)

  /** One `archives.json` entry. `sha256` stands for the archive's bytes: the digest is taken as
      collision-free, and the tar and its compression as lossless. `runs` lists (workflow, run id). */
  datatype Entry = Entry(year: int, tag: string, sha256: Tree, runs: set<(string, int)>)

  /** A file: not JSON, JSON that is no object, an object, or a schema-1 archive index. */
  datatype File = NotJson | NotObject | Object(rec: Record) | Index(entries: seq<Entry>)

  const SCHEMA := 1
  const WORKFLOWS := {"ci", "release", "nightly", "smp-stress", "macos"}
  const ARCHIVES: Path := ["archives.json"]

  // ---- names

  predicate IsDigit(c: char) { '0' <= c <= '9' }

  predicate IsDigits(s: string) {
    s != [] && forall i :: 0 <= i < |s| ==> IsDigit(s[i])
  }

  function ToInt(s: string): nat
    requires forall i :: 0 <= i < |s| ==> IsDigit(s[i])
  {
    if s == [] then 0 else
      assert IsDigit(s[|s| - 1]);
      ToInt(s[..|s| - 1]) * 10 + (s[|s| - 1] as int - '0' as int)
  }

  /** A run id as its file name writes it. */
  function Decimal(n: nat): (s: string)
    ensures IsDigits(s) && ToInt(s) == n
  {
    var digit := ('0' as int + n % 10) as char;
    if n < 10 then [digit] else
      var front := Decimal(n / 10);
      assert (front + [digit])[..|front|] == front;
      front + [digit]
  }

  predicate IsJsonName(name: string) {
    |name| >= 5 && name[|name| - 5..] == ".json"
  }

  /** `name.removesuffix(".json")`. */
  function Stem(name: string): string {
    if IsJsonName(name) then name[..|name| - 5] else name
  }

  function RecordPath(workflow: string, runId: nat): (p: Path)
    ensures |p| == 3 && p[0] == "runs" && p[1] == workflow
    ensures IsJsonName(p[2]) && IsDigits(Stem(p[2])) && ToInt(Stem(p[2])) == runId
  {
    var name := Decimal(runId) + ".json";
    assert name[|name| - 5..] == ".json" && name[..|name| - 5] == Decimal(runId);
    ["runs", workflow, name]
  }

  // ---- records

  predicate ValidRecord(f: File, workflow: string, runId: int) {
    && f.Object?
    && f.rec.schema == Some(SCHEMA) && f.rec.workflow == Some(workflow) && f.rec.runId == Some(runId)
    && f.rec.jobs.Some?
    && (f.rec.tombstone.NoTombstone? || (f.rec.tombstone.TextTombstone? && f.rec.jobs.value == 0))
  }

  /** A run record file, on the branch or in an archive, that readers report. */
  predicate IsRecord(p: Path, f: File) {
    && |p| == 3 && p[0] == "runs" && p[1] in WORKFLOWS && IsJsonName(p[2])
    && IsDigits(Stem(p[2])) && ValidRecord(f, p[1], ToInt(Stem(p[2])))
  }

  /** `archives()`: the index's entries, or `None` for an error. */
  function Archives(t: Tree): Option<seq<Entry>> {
    if ARCHIVES !in t then Some([]) else
    match t[ARCHIVES]
    case Index(entries) => Some(entries)
    case _ => None
  }

  /** `has` answers true. */
  ghost predicate Has(t: Tree, workflow: string, runId: int) {
    workflow in WORKFLOWS && runId > 0 && (OnBranch(t, workflow, runId) || InArchives(t, workflow, runId))
  }

  ghost predicate OnBranch(t: Tree, workflow: string, runId: int)
    requires runId > 0
  {
    RecordPath(workflow, runId) in t && ValidRecord(t[RecordPath(workflow, runId)], workflow, runId)
  }

  ghost predicate InArchives(t: Tree, workflow: string, runId: int) {
    Archives(t).Some? && exists e :: e in Archives(t).value && (workflow, runId) in e.runs
  }

  /** The file at a run's path is reported exactly if it is a valid record of that run, of a known workflow. */
  lemma RecordExactly(workflow: string, runId: nat, f: File)
    ensures IsRecord(RecordPath(workflow, runId), f) <==> workflow in WORKFLOWS && ValidRecord(f, workflow, runId)
  {
  }

  /** No index is an empty one; a file in its place that is no index is an error. */
  lemma ArchivesExactly(t: Tree, entries: seq<Entry>)
    ensures Archives(t[ARCHIVES := Index(entries)]) == Some(entries) && Archives(t - {ARCHIVES}) == Some([])
    ensures Archives(t).None? <==> ARCHIVES in t && !t[ARCHIVES].Index?
  {
  }

  // ---- what `records` reports

  /** How many files of `t` are the valid run record `r`. */
  ghost function Copies(t: Tree, r: Record): nat {
    |RecordPaths(t, r)|
  }

  ghost function RecordPaths(t: Tree, r: Record): set<Path> {
    set p | p in t && IsRecord(p, t[p]) && t[p].rec == r
  }

  /** The archived copies of `r` over `entries`, read back from `releases`. */
  ghost function ArchivedCopies(entries: seq<Entry>, releases: map<string, Tree>, r: Record): nat
    requires forall e :: e in entries ==> Readable(e, releases)
  {
    if entries == [] then 0 else
      assert Readable(entries[|entries| - 1], releases);
      ArchivedCopies(entries[..|entries| - 1], releases, r)
      + Copies(releases[entries[|entries| - 1].tag], r)
  }

  /** The entry's asset can be downloaded and matches its digest. */
  ghost predicate Readable(e: Entry, releases: map<string, Tree>) {
    e.tag in releases && releases[e.tag] == e.sha256
  }

  ghost predicate AllReadable(t: Tree, releases: map<string, Tree>) {
    Archives(t).Some? && forall e :: e in Archives(t).value ==> Readable(e, releases)
  }

  /** The multiplicity of `r` in what `records()` reports. */
  ghost function Reported(t: Tree, releases: map<string, Tree>, r: Record): nat
    requires AllReadable(t, releases)
  {
    Copies(t, r) + ArchivedCopies(Archives(t).value, releases, r)
  }

  // ---- rotation

  function YearOf(p: Path, f: File): Option<int> {
    if |p| == 2 && p[0] == "records" && IsDigits(Prefix4(p[1])) then Some(ToInt(Prefix4(p[1])))
    else if |p| != 3 || p[0] != "runs" || !f.Object? then None
    else if f.rec.started.Some? then f.rec.started
    else f.rec.created
  }

  function Prefix4(name: string): string {
    if |name| < 4 then name else name[..4]
  }

  /** A run's record belongs to the year the run started in, or else the year it was created in, and a host's
      record to the year its name starts with. */
  lemma {:induction false} YearExactly(workflow: string, runId: nat, rec: Record, digits: string, rest: string, f: File)
    requires |digits| == 4 && IsDigits(digits)
    ensures rec.started.Some? ==> YearOf(RecordPath(workflow, runId), Object(rec)) == rec.started
    ensures rec.started.None? ==> YearOf(RecordPath(workflow, runId), Object(rec)) == rec.created
    ensures !f.Object? ==> YearOf(RecordPath(workflow, runId), f) == None
    ensures YearOf(["records", digits + rest], f) == Some(ToInt(digits))
  {
    assert (digits + rest)[..4] == digits;
  }

  /** `years[year]`: the files `year` takes along. */
  function MovedPaths(t: Tree, year: int): set<Path> {
    set p | p in t && YearOf(p, t[p]) == Some(year)
  }

  ghost predicate IsOldest(t: Tree, year: int) {
    && (exists p :: p in t && YearOf(p, t[p]) == Some(year))
    && forall p, y :: p in t && YearOf(p, t[p]) == Some(y) ==> year <= y
  }

  ghost predicate NoneDated(t: Tree) {
    forall p :: p in t ==> YearOf(p, t[p]) == None
  }

  /** The archive: the moved files. */
  function Archive(t: Tree, year: int): Tree {
    map p | p in MovedPaths(t, year) :: t[p]
  }

  /** The runs an archive of `blob` lists. */
  function ListedRuns(blob: Tree): set<(string, int)> {
    set p | p in blob && |p| == 3 && p[0] == "runs" && IsDigits(Stem(p[2])) :: (p[1], ToInt(Stem(p[2])))
  }

  /** An archive lists a run exactly when it holds a file named by the run's id in the workflow's directory. */
  lemma ListedExactly(blob: Tree, workflow: string, runId: nat)
    ensures (workflow, runId) in ListedRuns(blob) <==>
      exists name :: ["runs", workflow, name] in blob && IsDigits(Stem(name)) && ToInt(Stem(name)) == runId
    ensures RecordPath(workflow, runId) in blob ==> (workflow, runId) in ListedRuns(blob)
  {
    if (workflow, runId) in ListedRuns(blob) {
      var p :| p in blob && |p| == 3 && p[0] == "runs" && IsDigits(Stem(p[2])) && (p[1], ToInt(Stem(p[2]))) == (workflow, runId);
      assert p == ["runs", workflow, p[2]];
    }
    if name :| ["runs", workflow, name] in blob && IsDigits(Stem(name)) && ToInt(Stem(name)) == runId {
      var p := ["runs", workflow, name];
      assert p in blob && p[2] == name;
    }
    var p := RecordPath(workflow, runId);
    assert p == ["runs", workflow, p[2]];
  }

  /** "ci-history-<year>", keyed by its year. */
  function Tag(year: int): string {
    "ci-history-" + (if year < 0 then "-" + Decimal(-year) else Decimal(year))
  }

  lemma {:induction false} DecimalStart(n: nat)
    ensures Decimal(n) != [] && Decimal(n)[0] != '-'
  {
    assert IsDigit(Decimal(n)[0]);
  }

  /** No two years share a release. */
  lemma TagsDiffer(y: int, z: int)
    requires Tag(y) == Tag(z)
    ensures y == z
  {
    var prefix := "ci-history-";
    var a, b := Tag(y)[|prefix|..], Tag(z)[|prefix|..];
    hide Decimal, ToInt;
    assert a == if y < 0 then "-" + Decimal(-y) else Decimal(y);
    assert b == if z < 0 then "-" + Decimal(-z) else Decimal(z);
    if y >= 0 { DecimalStart(y); }
    if z >= 0 { DecimalStart(z); }
    if y < 0 && z < 0 {
      assert a[1..] == Decimal(-y) && b[1..] == Decimal(-z);
    }
  }

  /** The tree of the orphan commit. */
  function Rotated(t: Tree, year: int): Tree
    requires Archives(t).Some?
  {
    var blob := Archive(t, year);
    (t - MovedPaths(t, year))[ARCHIVES :=
      Index(Archives(t).value + [Entry(year, Tag(year), blob, ListedRuns(blob))])]
  }

  /** The archive holds exactly the year's files. */
  lemma ArchivedExactly(t: Tree, year: int)
    ensures forall p :: p in Archive(t, year) <==> p in t && YearOf(p, t[p]) == Some(year)
    ensures forall p :: p in Archive(t, year) ==> Archive(t, year)[p] == t[p]
  {
  }

  /** The branch keeps exactly the other files, but for the index, which gets one more entry. */
  lemma KeptExactly(t: Tree, year: int)
    requires Archives(t).Some?
    ensures forall p :: p != ARCHIVES ==> (p in Rotated(t, year) <==> p in t && YearOf(p, t[p]) != Some(year))
    ensures forall p :: p != ARCHIVES && p in Rotated(t, year) ==> Rotated(t, year)[p] == t[p]
    ensures Archives(Rotated(t, year)) ==
      Some(Archives(t).value + [Entry(year, Tag(year), Archive(t, year), ListedRuns(Archive(t, year)))])
  {
    hide YearOf, Tag, ListedRuns;
  }

  /** From `before` to `after` exactly the files of the oldest dated year leave the branch, for `asset`, and
      the index lists them. */
  ghost predicate TakesOldest(before: Tree, after: Tree, asset: Tree, year: int) {
    && (exists p :: p in before && YearOf(p, before[p]) == Some(year))
    && (forall p, y :: p in before && YearOf(p, before[p]) == Some(y) ==> year <= y)
    && (forall p :: p in asset <==> p in before && YearOf(p, before[p]) == Some(year))
    && (forall p :: p != ARCHIVES ==> (p in after <==> p in before && YearOf(p, before[p]) != Some(year)))
    && (forall p :: p in asset ==> asset[p] == before[p])
    && (forall p :: p != ARCHIVES && p in after ==> after[p] == before[p])
    && Archives(before).Some?
    && Archives(after) == Some(Archives(before).value + [Entry(year, Tag(year), asset, ListedRuns(asset))])
  }

  lemma RotationTakes(t: Tree, year: int)
    requires Archives(t).Some? && IsOldest(t, year)
    ensures TakesOldest(t, Rotated(t, year), Archive(t, year), year)
  {
    ArchivedExactly(t, year);
    KeptExactly(t, year);
    hide YearOf, Tag, ListedRuns, Archives, Rotated, Archive;
  }

  /** A rotation splits the branch's record files between the new branch and the archive. */
  lemma CopiesSplit(t: Tree, year: int, r: Record)
    requires Archives(t).Some?
    ensures Copies(t, r) == Copies(Rotated(t, year), r) + Copies(Archive(t, year), r)
  {
    ArchivedExactly(t, year);
    KeptExactly(t, year);
    assert forall f :: YearOf(ARCHIVES, f) == None;
    hide YearOf, Rotated, Archive, Archives;
    CopiesPartition(t, Rotated(t, year), Archive(t, year), r);
  }

  lemma CopiesPartition(t: Tree, kept: Tree, moved: Tree, r: Record)
    requires forall p :: p in moved ==> p in t && t[p] == moved[p] && p != ARCHIVES && p !in kept
    requires forall p :: p in kept && p != ARCHIVES ==> p in t && t[p] == kept[p]
    requires forall p :: p in t && p != ARCHIVES ==> p in kept || p in moved
    ensures Copies(t, r) == Copies(kept, r) + Copies(moved, r)
  {
    assert forall f :: !IsRecord(ARCHIVES, f);
    hide IsRecord;
    assert RecordPaths(t, r) == RecordPaths(kept, r) + RecordPaths(moved, r);
    assert RecordPaths(kept, r) !! RecordPaths(moved, r);
  }

  lemma {:induction false} ArchivedCopiesGrow(entries: seq<Entry>, releases: map<string, Tree>, releases': map<string, Tree>, r: Record)
    requires forall e :: e in entries ==> Readable(e, releases)
    requires forall tag :: tag in releases ==> tag in releases' && releases'[tag] == releases[tag]
    ensures forall e :: e in entries ==> Readable(e, releases')
    ensures ArchivedCopies(entries, releases', r) == ArchivedCopies(entries, releases, r)
  {
    if entries != [] {
      assert entries[|entries| - 1] in entries;
      ArchivedCopiesGrow(entries[..|entries| - 1], releases, releases', r);
    }
  }

  /** A rotation whose archive is released leaves the multiset of reported records unchanged. */
  lemma RotationConserves(t: Tree, year: int, releases: map<string, Tree>, r: Record)
    requires AllReadable(t, releases)
    requires Tag(year) in releases && releases[Tag(year)] == Archive(t, year)
    ensures AllReadable(Rotated(t, year), releases)
    ensures Reported(Rotated(t, year), releases, r) == Reported(t, releases, r)
  {
    var entries := Archives(t).value;
    var entries' := Archives(Rotated(t, year)).value;
    assert entries'[..|entries'| - 1] == entries;
    CopiesSplit(t, year, r);
  }

  /** After a rotation `has` answers true for exactly the runs it did before and those whose file the
      rotation moved, a valid record or not. */
  lemma RotationHas(t: Tree, year: int, workflow: string, runId: int)
    requires Archives(t).Some? && workflow in WORKFLOWS && runId > 0
    ensures Has(Rotated(t, year), workflow, runId)
       <==> Has(t, workflow, runId) || (workflow, runId) in ListedRuns(Archive(t, year))
  {
    var t' := Rotated(t, year);
    ArchivedExactly(t, year);
    KeptExactly(t, year);
    var p := RecordPath(workflow, runId);
    var entries := Archives(t).value;
    var entries' := Archives(t').value;
    var last := entries'[|entries|];
    assert forall e :: e in entries' <==> e in entries || e == last;
    if OnBranch(t, workflow, runId) && p in Archive(t, year) {
      assert (workflow, runId) in ListedRuns(Archive(t, year));
    }
  }
}
