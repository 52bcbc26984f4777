/** Writers and rotators on the `ci-history` branch, as steps on one remote. */
module HistoryProtocol {
  import opened Wrappers
  import opened HistoryFiles

  const PUSH_ATTEMPTS := 10

  /** A commit: who made it, the files it wrote on its parent (all of them, without one), its tree, and
      the commits it descends from, itself included. */
  datatype Commit = Commit(author: nat, files: Tree, tree: Tree, history: set<nat>)

  /** How a client's last call ended: `commit_files` returned the pushed commit, `rotate` a tag, either of
      them None, or it raised. */
  datatype Ending = NoCall | Pushed(id: nat) | Tagged(tag: string) | Nothing | Raised(why: Why)

  datatype Why = OutOfAttempts | NothingDated | CurrentYear | TagTaken | RecordsChanged | CommandFailed

  /** Where a client is in its call. `head` is its checked-out commit. */
  datatype Client =
    | Idle(head: Option<nat>, ended: Ending)
    // commit_files: about to apply the files, to push, to fetch after a failed push, to name the commit
    // after a push reported successful
    | Applying(head: Option<nat>, files: Tree, attempt: nat)
    | Pushing(head: Option<nat>, files: Tree, attempt: nat)
    | Refetching(head: Option<nat>, files: Tree, attempt: nat)
    | Naming(head: Option<nat>)
    // rotate: about to open the tip, to release its oldest year, to push the orphan commit, to rename the
    // local branch after the push, which was reported successful or not
    | Opening(head: Option<nat>, attempt: nat, released: map<string, Tree>)
    | Releasing(head: Option<nat>, tip: nat, year: int, attempt: nat, released: map<string, Tree>)
    | Leasing(head: Option<nat>, tip: nat, year: int, attempt: nat, released: map<string, Tree>)
    | Renaming(head: Option<nat>, year: int, attempt: nat, released: map<string, Tree>, pushed: bool)

  /** The remote branch and the commits it has ever held, every commit made, the releases, the clients. */
  datatype World = World(
    tip: Option<nat>, remote: set<nat>, commits: map<nat, Commit>, releases: map<string, Tree>,
    clients: map<nat, Client>)

  datatype Action =
    | Open(c: nat)                             // check out the remote tip
    | Call(c: nat, files: Tree)                // call commit_files
    | Unchanged(c: nat)                        // the branch already holds the files
    | MakeCommit(c: nat, id: nat)
    | Push(c: nat, reported: bool)             // the push takes effect, and is reported so or not
    | PushFails(c: nat)
    | Name(c: nat)                             // return the pushed commit
    | NameFails(c: nat)                        // the pushed commit is not found: return None
    | Refetch(c: nat)
    | StartRotation(c: nat)
    | Plan(c: nat, year: int, now: int)        // open the tip and choose its oldest year
    | Release(c: nat, id: nat)                 // create the release and make the orphan commit
    | ReleaseLost(c: nat)                      // the release is created and reported failed
    | Reuse(c: nat, id: nat)                   // released by an earlier attempt of this call
    | Lease(c: nat, reported: bool)            // the leased push takes effect, and is reported so or not
    | LeaseFails(c: nat)
    | Rename(c: nat)                           // rename the branch; return the tag, or try again or give up
    | Under(c: nat)                            // the opened branch is under the threshold, or is none
    | RefuseUndated(c: nat)                    // the opened branch holds no dated record
    | RefuseYear(c: nat, year: int, now: int)  // its oldest year is not over
    | RefuseTag(c: nat)                        // the year is released, by another call
    | RefuseChanged(c: nat)                    // the year is released by this call, with other records
    | Fail(c: nat)                             // a command fails inside a call

  const START := World(None, {}, map[], map[], map[])

  function ClientOf(w: World, c: nat): Client {
    if c in w.clients then w.clients[c] else Idle(None, NoCall)
  }

  function WithClient(w: World, c: nat, client: Client): World {
    w.(clients := w.clients[c := client])
  }

  function TreeAt(w: World, head: Option<nat>): Tree {
    if head.Some? && head.value in w.commits then w.commits[head.value].tree else map[]
  }

  /** The files a caller of `commit_files` passes: some, no archive index, and at a run's record path
      only a valid record of that run. */
  ghost predicate Good(files: Tree) {
    && files != map[] && ARCHIVES !in files
    && forall workflow, runId: nat :: workflow in WORKFLOWS && runId > 0 && RecordPath(workflow, runId) in files
         ==> ValidRecord(files[RecordPath(workflow, runId)], workflow, runId)
  }

  /** The remote takes a plain push of `head`: its tip, if any, is among `head`'s ancestors. */
  predicate FastForward(w: World, head: nat) {
    head in w.commits && (w.tip.Some? ==> w.tip.value in w.commits[head].history)
  }

  function MoveTip(w: World, head: nat): World
    requires head in w.commits
  {
    w.(tip := Some(head), remote := w.remote + w.commits[head].history)
  }

  function AddCommit(w: World, id: nat, commit: Commit): World {
    w.(commits := w.commits[id := commit])
  }

  /** After a push reported failed: fetch and try again, or give up. */
  function AfterFailedPush(client: Client): Client
    requires client.Pushing?
  {
    if client.attempt < PUSH_ATTEMPTS then Refetching(client.head, client.files, client.attempt)
    else Idle(client.head, Raised(OutOfAttempts))
  }

  /** After the leased push the local branch is renamed, whatever the push reported. */
  function AfterLease(client: Client, reported: bool): Client
    requires client.Leasing?
  {
    Renaming(client.head, client.year, client.attempt, client.released, reported)
  }

  function AfterFailedLease(client: Client): Client
    requires client.Renaming?
  {
    if client.attempt < PUSH_ATTEMPTS then Opening(client.head, client.attempt + 1, client.released)
    else Idle(client.head, Raised(OutOfAttempts))
  }

  /** The orphan commit that rotates `year` out of commit `tip`. */
  function Orphan(w: World, c: nat, tip: nat, year: int, id: nat): Commit
    requires tip in w.commits && Archives(w.commits[tip].tree).Some?
  {
    var tree := Rotated(w.commits[tip].tree, year);
    Commit(c, tree, tree, {id})
  }

  /** One step, when it can be taken. */
  ghost function Step(w: World, a: Action): Option<World> {
    var client := ClientOf(w, a.c);
    match a
    case Open(c) =>
      if client.Idle? then Some(WithClient(w, c, Idle(w.tip, client.ended))) else None
    case Call(c, files) =>
      if client.Idle? && Good(files) then Some(WithClient(w, c, Applying(client.head, files, 1))) else None
    case Unchanged(c) =>
      if client.Applying? && client.head.Some? && TreeAt(w, client.head) + client.files == TreeAt(w, client.head)
      then Some(WithClient(w, c, Idle(client.head, Nothing))) else None
    case MakeCommit(c, id) =>
      if client.Applying? && id !in w.commits
         && (client.head.None? || TreeAt(w, client.head) + client.files != TreeAt(w, client.head))
      then Some(WithClient(AddCommit(w, id, NewCommit(w, c, client, id)), c, Pushing(Some(id), client.files, client.attempt)))
      else None
    case Push(c, reported) =>
      if client.Pushing? && client.head.Some? && FastForward(w, client.head.value)
      then Some(WithClient(MoveTip(w, client.head.value), c,
                           if reported then Naming(client.head) else AfterFailedPush(client)))
      else None
    case PushFails(c) =>
      if client.Pushing? then Some(WithClient(w, c, AfterFailedPush(client))) else None
    case Name(c) =>
      if client.Naming? && client.head.Some? then Some(WithClient(w, c, Idle(client.head, Pushed(client.head.value)))) else None
    case NameFails(c) =>
      if client.Naming? then Some(WithClient(w, c, Idle(client.head, Nothing))) else None
    case Refetch(c) =>
      if client.Refetching? && w.tip.Some? then Some(WithClient(w, c, Applying(w.tip, client.files, client.attempt + 1)))
      else None
    case StartRotation(c) =>
      if client.Idle? then Some(WithClient(w, c, Opening(client.head, 1, map[]))) else None
    case Plan(c, year, now) =>
      if client.Opening? && w.tip.Some? && IsOldest(TreeAt(w, w.tip), year) && year < now
      then Some(WithClient(w, c, Releasing(w.tip, w.tip.value, year, client.attempt, client.released))) else None
    case Release(c, id) =>
      if CanRelease(w, c) && id !in w.commits && Archives(w.commits[client.tip].tree).Some?
      then Some(MakeOrphan(CreateRelease(w, client), c, client, id)) else None
    case ReleaseLost(c) =>
      if CanRelease(w, c) then Some(WithClient(CreateRelease(w, client), c, Idle(client.head, Raised(CommandFailed)))) else None
    case Reuse(c, id) =>
      if client.Releasing? && client.tip in w.commits && Archives(w.commits[client.tip].tree).Some? && id !in w.commits
         && Tag(client.year) in client.released
         && client.released[Tag(client.year)] == Archive(w.commits[client.tip].tree, client.year)
      then Some(MakeOrphan(w, c, client, id)) else None
    case Lease(c, reported) =>
      if client.Leasing? && w.tip == Some(client.tip) && client.head.Some? && client.head.value in w.commits
      then Some(WithClient(MoveTip(w, client.head.value), c, AfterLease(client, reported)))
      else None
    case LeaseFails(c) =>
      if client.Leasing? then Some(WithClient(w, c, AfterLease(client, false))) else None
    case Rename(c) =>
      if client.Renaming?
      then Some(WithClient(w, c, if client.pushed then Idle(client.head, Tagged(Tag(client.year))) else AfterFailedLease(client)))
      else None
    case Under(c) =>
      if client.Opening? then Some(WithClient(w, c, Idle(w.tip, Nothing))) else None
    case RefuseUndated(c) =>
      if client.Opening? && w.tip.Some? && NoneDated(TreeAt(w, w.tip))
      then Some(WithClient(w, c, Idle(w.tip, Raised(NothingDated)))) else None
    case RefuseYear(c, year, now) =>
      if client.Opening? && w.tip.Some? && IsOldest(TreeAt(w, w.tip), year) && year >= now
      then Some(WithClient(w, c, Idle(w.tip, Raised(CurrentYear)))) else None
    case RefuseTag(c) =>
      if client.Releasing? && Tag(client.year) !in client.released && Tag(client.year) in w.releases
      then Some(WithClient(w, c, Idle(client.head, Raised(TagTaken)))) else None
    case RefuseChanged(c) =>
      if client.Releasing? && client.tip in w.commits && Tag(client.year) in client.released
         && client.released[Tag(client.year)] != Archive(w.commits[client.tip].tree, client.year)
      then Some(WithClient(w, c, Idle(client.head, Raised(RecordsChanged)))) else None
    case Fail(c) =>
      if !client.Idle? then Some(WithClient(w, c, Idle(client.head, Raised(CommandFailed)))) else None
  }

  /** The commit of the client's files on its head. */
  function NewCommit(w: World, c: nat, client: Client, id: nat): Commit
    requires client.Applying?
  {
    var history := if client.head.Some? && client.head.value in w.commits then w.commits[client.head.value].history else {};
    Commit(c, client.files, TreeAt(w, client.head) + client.files, history + {id})
  }

  predicate CanRelease(w: World, c: nat) {
    var client := ClientOf(w, c);
    client.Releasing? && client.tip in w.commits && Tag(client.year) !in client.released && Tag(client.year) !in w.releases
  }

  function CreateRelease(w: World, client: Client): World
    requires client.Releasing? && client.tip in w.commits
  {
    w.(releases := w.releases[Tag(client.year) := Archive(w.commits[client.tip].tree, client.year)])
  }

  function MakeOrphan(w: World, c: nat, client: Client, id: nat): World
    requires client.Releasing? && client.tip in w.commits && Archives(w.commits[client.tip].tree).Some?
  {
    var released := client.released[Tag(client.year) := Archive(w.commits[client.tip].tree, client.year)];
    WithClient(AddCommit(w, id, Orphan(w, c, client.tip, client.year, id)), c,
               Leasing(Some(id), client.tip, client.year, client.attempt, released))
  }

  /** Any interleaving: the actions in order, `None` if one cannot be taken. */
  ghost function Run(w: World, actions: seq<Action>): Option<World>
    decreases |actions|
  {
    if actions == [] then Some(w) else
    match Step(w, actions[0])
    case None => None
    case Some(w') => Run(w', actions[1..])
  }

  // ---- the invariant

  type Commits = map<nat, Commit>
  type Releases = map<string, Tree>

  /** Every run `a` has, `b` has. */
  ghost predicate HasLe(a: Tree, b: Tree) {
    forall workflow, runId :: Has(a, workflow, runId) ==> Has(b, workflow, runId)
  }

  ghost predicate SameAt(a: Tree, b: Tree, p: Path) {
    (p in a <==> p in b) && (p in a ==> a[p] == b[p])
  }

  /** `id`'s ancestors are commits, themselves closed under ancestors, and lie on one line. */
  ghost predicate LineOk(commits: Commits, id: nat)
    requires id in commits
  {
    && id in commits[id].history && commits[id].history <= commits.Keys
    && (forall a :: a in commits[id].history ==> commits[a].history <= commits[id].history)
    && (forall a :: a in commits[id].history && id in commits[a].history ==> a == id)
    && (forall a, b :: a in commits[id].history && b in commits[id].history
          ==> a in commits[b].history || b in commits[a].history)
  }

  /** No file on the way from `a` to its descendant `id` writes `p`. */
  ghost predicate Untouched(commits: Commits, a: nat, id: nat, p: Path)
    requires id in commits && a in commits && commits[id].history <= commits.Keys
  {
    forall b :: b in commits[id].history && b !in commits[a].history ==> p !in commits[b].files
  }

  /** A commit has every run its ancestors have, and differs from them only where files were written. */
  ghost predicate ContentOk(commits: Commits, id: nat)
    requires id in commits && commits[id].history <= commits.Keys
  {
    && Archives(commits[id].tree).Some?
    && (forall a :: a in commits[id].history ==> HasLe(commits[a].tree, commits[id].tree))
    && (forall a, p :: a in commits[id].history && Untouched(commits, a, id, p)
          ==> SameAt(commits[a].tree, commits[id].tree, p))
    && (forall a, p :: a in commits[id].history && p in commits[a].files ==> p in commits[id].tree)
    && (forall p :: p in commits[id].tree ==> Written(commits, id, p))
  }

  /** Some commit on the way to `id` wrote `p`. */
  ghost predicate Written(commits: Commits, id: nat, p: Path)
    requires id in commits && commits[id].history <= commits.Keys
  {
    exists a :: a in commits[id].history && p in commits[a].files
  }

  ghost predicate CommitsOk(commits: Commits) {
    forall id :: id in commits ==> LineOk(commits, id) && ContentOk(commits, id)
  }

  /** Every archive any commit's index lists is released. */
  ghost predicate ReleasesOk(commits: Commits, releases: Releases) {
    forall id :: id in commits ==> AllReadable(commits[id].tree, releases)
  }

  /** The remote holds whole histories, and its tip is an ancestor of nothing else there. */
  ghost predicate RemoteOk(commits: Commits, remote: set<nat>, tip: Option<nat>) {
    && remote <= commits.Keys
    && (forall b :: b in remote ==> commits[b].history <= remote)
    && (tip.None? ==> remote == {})
    && (tip.Some? ==> tip.value in remote && forall b :: b in remote && tip.value in commits[b].history ==> b == tip.value)
  }

  /** What the client's commits say about its phase. */
  ghost predicate ClientOk(commits: Commits, remote: set<nat>, releases: Releases, c: nat, client: Client) {
    && OwnCommits(commits, remote, c, client.head)
    && (client.Applying? || client.Pushing? || client.Refetching? ==> Good(client.files))
    && (client.Pushing? || client.Leasing? ==> client.head.Some? && client.head.value !in remote)
    && (client.Pushing? ==> client.head.value in commits && Holds(commits[client.head.value].tree, client.files))
    && (client.Naming? ==> client.head.Some?)
    && (client.Opening? || client.Releasing? || client.Leasing? || client.Renaming? ==>
          forall tag :: tag in client.released ==> tag in releases && releases[tag] == client.released[tag])
    && (client.Releasing? || client.Leasing? ==> client.tip in commits && IsOldest(commits[client.tip].tree, client.year))
    && (client.Leasing? ==> LeaseOk(commits, releases, client.head.value, client.tip, client.year))
    && (client.Leasing? || client.Renaming? ==> Tag(client.year) in client.released)
  }

  ghost predicate Holds(t: Tree, files: Tree) {
    forall p :: p in files ==> p in t && t[p] == files[p]
  }

  /** What a client has made and not pushed is its own. */
  ghost predicate OwnCommits(commits: Commits, remote: set<nat>, c: nat, head: Option<nat>) {
    head.Some? ==>
      && head.value in commits
      && forall b :: b in commits[head.value].history && b !in remote ==> b in commits && commits[b].author == c
  }

  /** `head` is the orphan that rotates `year`, whose archive is released, out of `tip`. */
  ghost predicate LeaseOk(commits: Commits, releases: Releases, head: nat, tip: nat, year: int) {
    && head in commits && tip in commits && commits[head].history == {head}
    && Archives(commits[tip].tree).Some?
    && commits[head].tree == Rotated(commits[tip].tree, year)
    && Tag(year) in releases && releases[Tag(year)] == Archive(commits[tip].tree, year)
  }

  ghost predicate Inv(w: World) {
    && CommitsOk(w.commits)
    && ReleasesOk(w.commits, w.releases)
    && RemoteOk(w.commits, w.remote, w.tip)
    && forall c :: ClientOk(w.commits, w.remote, w.releases, c, ClientOf(w, c))
  }

  lemma StartInv()
    ensures Inv(START)
  {
  }

  // ---- trees

  /** Writing good files never takes a run away, and leaves the archive index alone. */
  lemma WriteKeepsHas(t: Tree, files: Tree)
    requires Good(files)
    ensures HasLe(t, t + files) && Archives(t + files) == Archives(t)
  {
  }

  lemma RotationKeepsHas(t: Tree, year: int)
    requires Archives(t).Some?
    ensures HasLe(t, Rotated(t, year))
  {
    forall workflow, runId | Has(t, workflow, runId)
      ensures Has(Rotated(t, year), workflow, runId)
    {
      RotationHas(t, year, workflow, runId);
    }
  }

  // ---- a new commit

  ghost predicate Extends(before: Commits, after: Commits) {
    before.Keys <= after.Keys && forall k :: k in before ==> after[k] == before[k]
  }

  lemma LineKept(before: Commits, after: Commits, k: nat)
    requires Extends(before, after) && k in before && LineOk(before, k)
    ensures LineOk(after, k)
  {
  }

  lemma ContentKept(before: Commits, after: Commits, k: nat)
    requires Extends(before, after) && k in before && LineOk(before, k) && ContentOk(before, k)
    ensures LineOk(after, k) && ContentOk(after, k)
  {
    hide HasLe;
    LineKept(before, after, k);
    forall a, p | a in after[k].history && Untouched(after, a, k, p)
      ensures SameAt(after[a].tree, after[k].tree, p)
    {
      assert Untouched(before, a, k, p);
    }
  }

  /** A commit of good files on `h`. */
  ghost predicate WritesOn(commits: Commits, h: nat, id: nat, commit: Commit) {
    && h in commits && Good(commit.files)
    && commit.history == commits[h].history + {id}
    && commit.tree == commits[h].tree + commit.files
  }

  lemma LineGrows(before: Commits, after: Commits, h: nat, id: nat)
    requires Extends(before, after) && id !in before && id in after && CommitsOk(before)
    requires WritesOn(before, h, id, after[id])
    ensures LineOk(after, id)
  {
    hide ContentOk, Good;
    assert LineOk(before, h);
    assert forall a :: a in before[h].history ==> after[a] == before[a] && LineOk(before, a);
  }

  lemma HasGrows(before: Commits, after: Commits, h: nat, id: nat)
    requires Extends(before, after) && id !in before && id in after && CommitsOk(before)
    requires WritesOn(before, h, id, after[id]) && LineOk(after, id)
    ensures Archives(after[id].tree).Some?
    ensures forall a :: a in after[id].history ==> HasLe(after[a].tree, after[id].tree)
  {
    assert LineOk(before, h) && ContentOk(before, h);
    WriteKeepsHas(before[h].tree, after[id].files);
    hide Has, Good, Archives, Untouched, SameAt, Written;
  }

  lemma WrittenGrows(before: Commits, after: Commits, h: nat, id: nat, p: Path)
    requires Extends(before, after) && id !in before && id in after && CommitsOk(before)
    requires WritesOn(before, h, id, after[id]) && LineOk(after, id) && p in after[id].tree
    ensures Written(after, id, p)
  {
    hide HasLe, Good, Archives, Untouched, SameAt;
    assert LineOk(before, h) && ContentOk(before, h);
    if p in before[h].tree {
      assert Written(before, h, p);
      var a :| a in before[h].history && p in before[a].files;
      assert a in after[id].history && p in after[a].files;
    } else {
      assert id in after[id].history && p in after[id].files;
    }
  }

  lemma SameGrows(before: Commits, after: Commits, h: nat, id: nat, a: nat, p: Path)
    requires Extends(before, after) && id !in before && id in after && CommitsOk(before)
    requires WritesOn(before, h, id, after[id]) && LineOk(after, id)
    requires a in after[id].history && Untouched(after, a, id, p)
    ensures SameAt(after[a].tree, after[id].tree, p)
  {
    hide HasLe, Good, Archives, Written;
    assert LineOk(before, h) && ContentOk(before, h);
    if a != id {
      assert Untouched(before, a, h, p);
      assert p !in after[id].files;
    }
  }

  lemma FilesGrow(before: Commits, after: Commits, h: nat, id: nat, a: nat, p: Path)
    requires Extends(before, after) && id !in before && id in after && CommitsOk(before)
    requires WritesOn(before, h, id, after[id]) && LineOk(after, id)
    requires a in after[id].history && p in after[a].files
    ensures p in after[id].tree
  {
    hide HasLe, Good, Archives, Written, Untouched;
    assert LineOk(before, h) && ContentOk(before, h);
    if a != id { assert p in before[a].files; }
  }

  lemma ContentGrows(before: Commits, after: Commits, h: nat, id: nat)
    requires Extends(before, after) && id !in before && id in after && CommitsOk(before)
    requires WritesOn(before, h, id, after[id]) && LineOk(after, id)
    ensures ContentOk(after, id)
  {
    assert after[id].history <= after.Keys;
    hide CommitsOk, LineOk, Extends, WritesOn, HasLe, Archives, Untouched, SameAt, Written;
    HasGrows(before, after, h, id);
    forall p | p in after[id].tree { WrittenGrows(before, after, h, id, p); }
    forall a, p | a in after[id].history && Untouched(after, a, id, p) { SameGrows(before, after, h, id, a, p); }
    forall a, p | a in after[id].history && p in after[a].files { FilesGrow(before, after, h, id, a, p); }
  }

  /** A commit that starts a line. */
  lemma RootOk(before: Commits, after: Commits, id: nat)
    requires Extends(before, after) && id !in before && id in after
    requires after[id].history == {id} && Archives(after[id].tree).Some?
    requires after[id].files == after[id].tree
    ensures LineOk(after, id) && ContentOk(after, id)
  {
  }

  /** The new commit continues a line with good files, or starts one. */
  ghost predicate Fits(before: Commits, id: nat, commit: Commit) {
    || (commit.history == {id} && Archives(commit.tree).Some? && commit.files == commit.tree)
    || exists h :: WritesOn(before, h, id, commit)
  }

  lemma CommitAdded(before: Commits, after: Commits, id: nat)
    requires CommitsOk(before) && Extends(before, after) && after.Keys == before.Keys + {id} && id !in before
    requires Fits(before, id, after[id])
    ensures CommitsOk(after)
  {
    hide Archives, WritesOn;
    forall k | k in after
      ensures LineOk(after, k) && ContentOk(after, k)
    {
      if k != id {
        ContentKept(before, after, k);
      } else if h :| WritesOn(before, h, id, after[id]) {
        LineGrows(before, after, h, id);
        ContentGrows(before, after, h, id);
      } else {
        RootOk(before, after, id);
      }
    }
  }

  lemma RemoteKept(before: Commits, after: Commits, remote: set<nat>, tip: Option<nat>)
    requires Extends(before, after) && RemoteOk(before, remote, tip)
    ensures RemoteOk(after, remote, tip)
  {
  }

  /** Adding commits and releases leaves a client's facts in place. */
  lemma ClientKept(before: Commits, after: Commits, remote: set<nat>, tip: Option<nat>, earlier: Releases, releases: Releases,
                   c: nat, client: Client)
    requires CommitsOk(before) && Extends(before, after) && RemoteOk(before, remote, tip)
    requires forall tag :: tag in earlier ==> tag in releases && releases[tag] == earlier[tag]
    requires ClientOk(before, remote, earlier, c, client)
    ensures ClientOk(after, remote, releases, c, client)
  {
    hide Good, Archives, Rotated, Archive, ContentOk;
  }

  lemma OwnAdded(before: Commits, after: Commits, remote: set<nat>, tip: Option<nat>, c: nat, head: Option<nat>, id: nat)
    requires CommitsOk(before) && Extends(before, after) && id !in before && id in after && RemoteOk(before, remote, tip)
    requires OwnCommits(before, remote, c, head) && after[id].author == c
    requires after[id].history == {id} || (head.Some? && head.value in before && after[id].history == before[head.value].history + {id})
    ensures OwnCommits(after, remote, c, Some(id)) && id !in remote
  {
    hide ContentOk;
  }

  // ---- a moved tip

  lemma TipMoved(commits: Commits, remote: set<nat>, tip: Option<nat>, head: nat)
    requires CommitsOk(commits) && RemoteOk(commits, remote, tip) && head in commits && head !in remote
    ensures RemoteOk(commits, remote + commits[head].history, Some(head))
  {
    hide ContentOk;
    assert LineOk(commits, head);
    var remote' := remote + commits[head].history;
    forall b | b in remote' && head in commits[b].history
      ensures b == head
    {
    }
  }

  lemma OwnPublished(commits: Commits, remote: set<nat>, more: set<nat>, c: nat, head: Option<nat>)
    requires OwnCommits(commits, remote, c, head)
    ensures OwnCommits(commits, remote + more, c, head)
  {
  }

  /** Another client's push leaves a client's facts in place. */
  lemma ClientPublished(commits: Commits, remote: set<nat>, releases: Releases, d: nat, head: nat, c: nat, client: Client)
    requires CommitsOk(commits) && c != d && head in commits
    requires OwnCommits(commits, remote, d, Some(head))
    requires ClientOk(commits, remote, releases, c, client)
    ensures ClientOk(commits, remote + commits[head].history, releases, c, client)
  {
    hide ContentOk, Good, Archives, LeaseOk;
    OwnPublished(commits, remote, commits[head].history, c, client.head);
    if client.Pushing? || client.Leasing? {
      assert LineOk(commits, client.head.value);
    }
  }

  // ---- every step keeps the invariant

  lemma LocalStep(w: World, c: nat, client: Client)
    requires Inv(w) && ClientOk(w.commits, w.remote, w.releases, c, client)
    ensures Inv(WithClient(w, c, client))
  {
    hide CommitsOk, ReleasesOk, RemoteOk, ClientOk;
    var w' := WithClient(w, c, client);
    forall d
      ensures ClientOk(w'.commits, w'.remote, w'.releases, d, ClientOf(w', d))
    {
      assert ClientOk(w.commits, w.remote, w.releases, d, ClientOf(w, d));
      assert ClientOf(w', d) == if d == c then client else ClientOf(w, d);
    }
  }

  /** The tip is a fine place to stand. */
  lemma TipOwn(w: World, c: nat)
    requires RemoteOk(w.commits, w.remote, w.tip)
    ensures OwnCommits(w.commits, w.remote, c, w.tip)
  {
  }

  lemma TipHeld(w: World)
    requires RemoteOk(w.commits, w.remote, w.tip)
    ensures w.tip.Some? ==> w.tip.value in w.commits
  {
  }

  /** An action that neither pushes, commits nor releases. */
  predicate IsLocal(a: Action) {
    a.Open? || a.Call? || a.Unchanged? || a.PushFails? || a.Refetch? || a.StartRotation? || a.Plan?
    || a.LeaseFails? || a.Name? || a.NameFails? || a.Rename? || a.Under? || a.RefuseUndated? || a.RefuseYear? || a.RefuseTag? || a.RefuseChanged? || a.Fail?
  }

  /** A local step changes only the client, to one the invariant allows. */
  lemma LocalClient(w: World, a: Action, w': World)
    requires Inv(w) && IsLocal(a) && Step(w, a) == Some(w')
    ensures w' == WithClient(w, a.c, ClientOf(w', a.c))
    ensures ClientOk(w.commits, w.remote, w.releases, a.c, ClientOf(w', a.c))
  {
    hide Inv, Step, ClientOk;
    if a.Open? || a.Call? || a.Unchanged? || a.PushFails? || a.Name? || a.NameFails? || a.Refetch? {
      WriterClient(w, a, w');
    } else if a.StartRotation? || a.Plan? || a.LeaseFails? || a.Rename? {
      RotatorClient(w, a, w');
    } else {
      EndingClient(w, a, w');
    }
  }

  lemma WriterClient(w: World, a: Action, w': World)
    requires Inv(w) && (a.Open? || a.Call? || a.Unchanged? || a.PushFails? || a.Name? || a.NameFails? || a.Refetch?)
    requires Step(w, a) == Some(w')
    ensures w' == WithClient(w, a.c, ClientOf(w', a.c))
    ensures ClientOk(w.commits, w.remote, w.releases, a.c, ClientOf(w', a.c))
  {
    hide CommitsOk, ReleasesOk, RemoteOk, OwnCommits, LeaseOk, Good, IsOldest, Rotated, Archive, Archives, NoneDated, Tag;
    assert ClientOk(w.commits, w.remote, w.releases, a.c, ClientOf(w, a.c));
    TipOwn(w, a.c);
    TipHeld(w);
  }

  lemma RotatorClient(w: World, a: Action, w': World)
    requires Inv(w) && (a.StartRotation? || a.Plan? || a.LeaseFails? || a.Rename?) && Step(w, a) == Some(w')
    ensures w' == WithClient(w, a.c, ClientOf(w', a.c))
    ensures ClientOk(w.commits, w.remote, w.releases, a.c, ClientOf(w', a.c))
  {
    hide CommitsOk, ReleasesOk, RemoteOk, OwnCommits, LeaseOk, Good, IsOldest, Rotated, Archive, Archives, NoneDated, Tag;
    assert ClientOk(w.commits, w.remote, w.releases, a.c, ClientOf(w, a.c));
    TipOwn(w, a.c);
    TipHeld(w);
  }

  lemma EndingClient(w: World, a: Action, w': World)
    requires Inv(w) && (a.Under? || a.RefuseUndated? || a.RefuseYear? || a.RefuseTag? || a.RefuseChanged? || a.Fail?)
    requires Step(w, a) == Some(w')
    ensures w' == WithClient(w, a.c, ClientOf(w', a.c))
    ensures ClientOk(w.commits, w.remote, w.releases, a.c, ClientOf(w', a.c))
  {
    hide CommitsOk, ReleasesOk, RemoteOk, OwnCommits, LeaseOk, Good, IsOldest, Rotated, Archive, Archives, NoneDated, Tag;
    assert ClientOk(w.commits, w.remote, w.releases, a.c, ClientOf(w, a.c));
    TipOwn(w, a.c);
    TipHeld(w);
  }

  lemma LocalInv(w: World, a: Action, w': World)
    requires Inv(w) && IsLocal(a) && Step(w, a) == Some(w')
    ensures Inv(w') && w'.tip == w.tip
  {
    hide Inv, ClientOk, Step;
    LocalClient(w, a, w');
    LocalStep(w, a.c, ClientOf(w', a.c));
  }

  /** The world with one more commit, which its maker stands on. */
  lemma AddCommitInv(w: World, c: nat, id: nat, commit: Commit, client: Client)
    requires Inv(w) && id !in w.commits && Fits(w.commits, id, commit) && AllReadable(commit.tree, w.releases)
    requires ClientOk(w.commits[id := commit], w.remote, w.releases, c, client)
    ensures Inv(WithClient(AddCommit(w, id, commit), c, client))
  {
    var w' := WithClient(AddCommit(w, id, commit), c, client);
    hide CommitsOk, RemoteOk, ClientOk, Fits, AllReadable;
    CommitAdded(w.commits, w'.commits, id);
    RemoteKept(w.commits, w'.commits, w.remote, w.tip);
    forall d
      ensures ClientOk(w'.commits, w'.remote, w'.releases, d, ClientOf(w', d))
    {
      if d != c {
        assert ClientOf(w', d) == ClientOf(w, d);
        ClientKept(w.commits, w'.commits, w.remote, w.tip, w.releases, w.releases, d, ClientOf(w, d));
      }
    }
  }

  lemma MakeCommitInv(w: World, c: nat, id: nat, w': World)
    requires Inv(w) && Step(w, MakeCommit(c, id)) == Some(w')
    ensures Inv(w') && w'.tip == w.tip
  {
    hide CommitsOk, RemoteOk, OwnCommits, LeaseOk, Good, AllReadable, IsOldest, Rotated, Archive, Archives;
    var client := ClientOf(w, c);
    var commit := NewCommit(w, c, client, id);
    assert ClientOk(w.commits, w.remote, w.releases, c, client);
    var head := client.head;
    HeadKnown(w.commits, w.remote, c, head);
    if head.Some? {
      assert WritesOn(w.commits, head.value, id, commit);
      assert AllReadable(w.commits[head.value].tree, w.releases);
    } else {
      NothingArchived(w.releases);
      assert commit.tree == client.files;
    }
    WriteReadable(TreeAt(w, head), client.files, w.releases);
    OwnAdded(w.commits, w.commits[id := commit], w.remote, w.tip, c, head, id);
    AddCommitInv(w, c, id, commit, Pushing(Some(id), client.files, client.attempt));
  }

  lemma HeadKnown(commits: Commits, remote: set<nat>, c: nat, head: Option<nat>)
    requires OwnCommits(commits, remote, c, head)
    ensures head.Some? ==> head.value in commits
  {
  }

  lemma NothingArchived(releases: Releases)
    ensures AllReadable(map[], releases)
  {
  }

  /** Good files leave the archive index alone. */
  lemma WriteReadable(t: Tree, files: Tree, releases: Releases)
    requires Good(files) && AllReadable(t, releases)
    ensures AllReadable(t + files, releases) && Archives(t + files).Some?
  {
    hide ValidRecord, RecordPath;
  }

  /** The world after client `c`'s new head becomes the tip. */
  lemma MoveTipInv(w: World, c: nat, head: nat, client: Client)
    requires Inv(w) && head in w.commits && head !in w.remote && OwnCommits(w.commits, w.remote, c, Some(head))
    requires ClientOk(w.commits, w.remote + w.commits[head].history, w.releases, c, client)
    ensures Inv(WithClient(MoveTip(w, head), c, client))
  {
    hide CommitsOk, ReleasesOk, RemoteOk, ClientOk, OwnCommits;
    var w' := WithClient(MoveTip(w, head), c, client);
    TipMoved(w.commits, w.remote, w.tip, head);
    forall d
      ensures ClientOk(w'.commits, w'.remote, w'.releases, d, ClientOf(w', d))
    {
      if d != c {
        assert ClientOf(w', d) == ClientOf(w, d);
        ClientPublished(w.commits, w.remote, w.releases, c, head, d, ClientOf(w, d));
      }
    }
  }

  lemma PushInv(w: World, c: nat, reported: bool, w': World)
    requires Inv(w) && Step(w, Push(c, reported)) == Some(w')
    ensures Inv(w') && w'.tip == ClientOf(w, c).head && w'.tip.Some?
  {
    hide CommitsOk, ReleasesOk, RemoteOk, OwnCommits, LeaseOk, Good, Rotated, Archive, IsOldest, Archives;
    var client := ClientOf(w, c);
    assert ClientOk(w.commits, w.remote, w.releases, c, client);
    var head := client.head.value;
    OwnPublished(w.commits, w.remote, w.commits[head].history, c, client.head);
    MoveTipInv(w, c, head, ClientOf(w', c));
  }

  lemma LeaseInv(w: World, c: nat, reported: bool, w': World)
    requires Inv(w) && Step(w, Lease(c, reported)) == Some(w')
    ensures Inv(w') && w'.tip == ClientOf(w, c).head && w'.tip.Some?
  {
    hide CommitsOk, ReleasesOk, RemoteOk, OwnCommits, LeaseOk, Good, Rotated, Archive, IsOldest, Archives;
    var client := ClientOf(w, c);
    assert ClientOk(w.commits, w.remote, w.releases, c, client);
    var head := client.head.value;
    OwnPublished(w.commits, w.remote, w.commits[head].history, c, client.head);
    MoveTipInv(w, c, head, ClientOf(w', c));
  }

  lemma CreateReleaseInv(w: World, c: nat)
    requires Inv(w) && CanRelease(w, c)
    ensures Inv(CreateRelease(w, ClientOf(w, c)))
  {
    hide CommitsOk, RemoteOk, ReleasesOk, ClientOk, Archives, Archive;
    var w' := CreateRelease(w, ClientOf(w, c));
    ReleasesMore(w.commits, w.releases, w'.releases);
    forall d
      ensures ClientOk(w'.commits, w'.remote, w'.releases, d, ClientOf(w', d))
    {
      assert ClientOf(w', d) == ClientOf(w, d);
      ClientKept(w.commits, w'.commits, w.remote, w.tip, w.releases, w'.releases, d, ClientOf(w, d));
    }
  }

  lemma ReleasesMore(commits: Commits, earlier: Releases, releases: Releases)
    requires ReleasesOk(commits, earlier)
    requires forall tag :: tag in earlier ==> tag in releases && releases[tag] == earlier[tag]
    ensures ReleasesOk(commits, releases)
  {
    hide Archives;
  }

  /** The client can make the orphan commit `id` of a year whose archive is released. */
  ghost predicate CanOrphan(w: World, c: nat, id: nat) {
    var client := ClientOf(w, c);
    && client.Releasing? && client.tip in w.commits && id !in w.commits
    && Archives(w.commits[client.tip].tree).Some?
    && Tag(client.year) in w.releases
    && w.releases[Tag(client.year)] == Archive(w.commits[client.tip].tree, client.year)
  }

  lemma OrphanReadable(commits: Commits, releases: Releases, tip: nat, year: int)
    requires ReleasesOk(commits, releases) && tip in commits && Archives(commits[tip].tree).Some?
    requires Tag(year) in releases && releases[Tag(year)] == Archive(commits[tip].tree, year)
    ensures AllReadable(Rotated(commits[tip].tree, year), releases)
  {
    assert AllReadable(commits[tip].tree, releases);
    RotationConserves(commits[tip].tree, year, releases, Record(None, None, None, None, NoTombstone, None, None));
  }

  lemma OrphanClient(w: World, c: nat, id: nat)
    requires CanOrphan(w, c, id)
    requires CommitsOk(w.commits) && RemoteOk(w.commits, w.remote, w.tip)
    requires ClientOk(w.commits, w.remote, w.releases, c, ClientOf(w, c))
    ensures CanOrphan(w, c, id) && var w' := MakeOrphan(w, c, ClientOf(w, c), id);
      ClientOk(w'.commits, w'.remote, w'.releases, c, ClientOf(w', c))
  {
    hide CommitsOk, RemoteOk, OwnCommits, Rotated, Archive, Archives;
    var client := ClientOf(w, c);
    var commit := Orphan(w, c, client.tip, client.year, id);
    OwnAdded(w.commits, w.commits[id := commit], w.remote, w.tip, c, client.head, id);
  }

  lemma MakeOrphanInv(w: World, c: nat, id: nat)
    requires CanOrphan(w, c, id)
    requires Inv(w)
    ensures CanOrphan(w, c, id) && Inv(MakeOrphan(w, c, ClientOf(w, c), id))
  {
    hide CommitsOk, ReleasesOk, RemoteOk, ClientOk, Rotated, Archive, AllReadable;
    var client := ClientOf(w, c);
    OrphanReadable(w.commits, w.releases, client.tip, client.year);
    OrphanClient(w, c, id);
    assert Fits(w.commits, id, Orphan(w, c, client.tip, client.year, id)) by { RotatedIndex(w.commits[client.tip].tree, client.year); }
    AddCommitInv(w, c, id, Orphan(w, c, client.tip, client.year, id), ClientOf(MakeOrphan(w, c, client, id), c));
  }

  lemma RotatedIndex(t: Tree, year: int)
    requires Archives(t).Some?
    ensures Archives(Rotated(t, year)).Some?
  {
  }

  lemma ReleaseInv(w: World, a: Action, w': World)
    requires Inv(w) && (a.Release? || a.ReleaseLost? || a.Reuse?) && Step(w, a) == Some(w')
    ensures Inv(w') && w'.tip == w.tip
  {
    hide CommitsOk, ReleasesOk, RemoteOk, OwnCommits, LeaseOk, Good, IsOldest, Rotated, Archive, Archives;
    var client := ClientOf(w, a.c);
    assert ClientOk(w.commits, w.remote, w.releases, a.c, client);
    if a.Reuse? {
      MakeOrphanInv(w, a.c, a.id);
    } else {
      CreateReleaseInv(w, a.c);
      var mid := CreateRelease(w, client);
      if a.Release? {
        MakeOrphanInv(mid, a.c, a.id);
      } else {
        LocalStep(mid, a.c, Idle(client.head, Raised(CommandFailed)));
      }
    }
  }

  /** Every step keeps the invariant, and moves the tip only by a push that takes effect. */
  lemma StepInv(w: World, a: Action, w': World)
    requires Inv(w) && Step(w, a) == Some(w')
    ensures Inv(w')
    ensures !a.Push? && !a.Lease? ==> w'.tip == w.tip
  {
    hide Inv, Step;
    match a
    case MakeCommit(c, id) => MakeCommitInv(w, c, id, w');
    case Push(c, reported) => PushInv(w, c, reported, w');
    case Lease(c, reported) => LeaseInv(w, c, reported, w');
    case Release(c, id) => ReleaseInv(w, a, w');
    case ReleaseLost(c) => ReleaseInv(w, a, w');
    case Reuse(c, id) => ReleaseInv(w, a, w');
    case _ => LocalInv(w, a, w');
  }

  ghost predicate ReleasesGrow(before: Releases, after: Releases) {
    forall tag :: tag in before ==> tag in after && after[tag] == before[tag]
  }

  /** Commits and releases are immutable. */
  lemma StepGrows(w: World, a: Action, w': World)
    requires Step(w, a) == Some(w')
    ensures Extends(w.commits, w'.commits) && ReleasesGrow(w.releases, w'.releases)
  {
    hide Good, IsOldest, Rotated, Archive, Archives;
  }
}
