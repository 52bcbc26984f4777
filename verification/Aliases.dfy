/** How a path in a comment resolves through a crate's modules and their `use` aliases, which may be cyclic. */
module Aliases {
  import opened Wrappers
  import opened Sets

  datatype Target = Mod(crate: string, path: seq<string>) | Item(crate: string, path: seq<string>)

  datatype Module = Module(crate: string, path: seq<string>, children: map<string, seq<string>>,
                           aliases: map<string, seq<string>>, defs: set<string>, implItems: map<string, set<string>>)

  type Index = map<(string, seq<string>), Module>

  /** A name looked up in a module. */
  datatype Ref = Ref(crate: string, path: seq<string>, seg: string)

  /** What loading leaves: a module is stored under its own crate and path, and no alias is empty. */
  ghost predicate WellLoaded(ix: Index) {
    forall c, p :: (c, p) in ix ==>
      ix[(c, p)].crate == c && ix[(c, p)].path == p && forall a :: a in ix[(c, p)].aliases ==> ix[(c, p)].aliases[a] != []
  }

  /** Python's `path[:-1]`. */
  function Parent(path: seq<string>): seq<string> {
    if path == [] then [] else path[..|path| - 1]
  }

  function Start(mod: Module, seg: string): Option<Target> {
    if seg == "crate" then Some(Mod(mod.crate, []))
    else if seg == "self" then Some(Mod(mod.crate, mod.path))
    else if seg == "super" then (if mod.path != [] then Some(Mod(mod.crate, Parent(mod.path))) else None)
    else if seg == "vibeos" then Some(Mod("vibeos", []))
    else None
  }

  datatype Route = Route(start: Target, rest: seq<string>)

  /** Where a `use` path starts and what is left to walk. */
  function RouteOf(mod: Module, full: seq<string>): Route
    requires full != []
  {
    var start := Start(mod, full[0]);
    if start.Some? then Route(start.value, full[1..])
    else if full[0] in mod.children || full[0] in mod.aliases then Route(Mod(mod.crate, mod.path), full)
    else Route(Mod(mod.crate, []), full)
  }

  /** `full` leads from module `mod` to `start`, with `rest` to walk from there. */
  ghost predicate StartsAt(mod: Module, full: seq<string>, start: Target, rest: seq<string>) {
    || (full == ["crate"] + rest && start == Mod(mod.crate, []))
    || (full == ["self"] + rest && start == Mod(mod.crate, mod.path))
    || (full == ["super"] + rest && exists last :: mod.path == start.path + [last] && start == Mod(mod.crate, start.path))
    || (full == ["vibeos"] + rest && start == Mod("vibeos", []))
    || (&& full == rest && full != [] && full[0] !in ["crate", "self", "vibeos"] && (full[0] == "super" ==> mod.path == [])
        && start == Mod(mod.crate, if full[0] in mod.children || full[0] in mod.aliases then mod.path else []))
  }

  /** A `use` path leads to one place, which its first name and the names of its own module decide. */
  lemma RouteExactly(mod: Module, full: seq<string>, start: Target, rest: seq<string>)
    requires full != []
    ensures RouteOf(mod, full) == Route(start, rest) <==> StartsAt(mod, full, start, rest)
  {
    assert full == [full[0]] + full[1..];
    if mod.path != [] {
      assert mod.path == Parent(mod.path) + [mod.path[|mod.path| - 1]];
    }
  }

  predicate LoadedChild(ix: Index, r: Ref) {
    && (r.crate, r.path) in ix && r.seg in ix[(r.crate, r.path)].children
    && (r.crate, ix[(r.crate, r.path)].children[r.seg]) in ix
  }

  predicate Defined(mod: Module, seg: string) {
    seg in mod.defs || seg in mod.implItems
  }

  predicate IsAlias(ix: Index, r: Ref) {
    (r.crate, r.path) in ix && r.seg in ix[(r.crate, r.path)].aliases
  }

  /** All alias names of all loaded modules: what the recursion can run through. */
  ghost function AliasRefs(ix: Index): (s: set<Ref>)
    ensures forall r :: r in s <==> IsAlias(ix, r)
  {
    var s := set k, a | k in ix.Keys && a in ix[k].aliases :: Ref(k.0, k.1, a);
    assert forall r :: IsAlias(ix, r) ==> (r.crate, r.path) in ix.Keys;
    s
  }

  ghost function Unseen(ix: Index, seen: set<Ref>): nat {
    |AliasRefs(ix) - seen|
  }

  lemma SeeOne(ix: Index, seen: set<Ref>, r: Ref)
    requires IsAlias(ix, r) && r !in seen
    ensures Unseen(ix, seen + {r}) < Unseen(ix, seen)
  {
    FewerElements(AliasRefs(ix) - (seen + {r}), AliasRefs(ix) - seen);
  }

  // ---- what the search computes

  /** The answer for a name, looking through no name already in `seen`. */
  ghost function Answer(ix: Index, r: Ref, seen: set<Ref>): Option<Target>
    requires WellLoaded(ix)
    decreases Unseen(ix, seen), 0, 0
  {
    if r in seen || (r.crate, r.path) !in ix then None else
    var mod := ix[(r.crate, r.path)];
    if LoadedChild(ix, r) then Some(Mod(r.crate, mod.children[r.seg])) else
    var used := if r.seg in mod.aliases then
                  SeeOne(ix, seen, r);
                  var route := RouteOf(mod, mod.aliases[r.seg]);
                  Walked(ix, route.start, route.rest, seen + {r})
                else None;
    if used.Some? then used
    else if Defined(mod, r.seg) then Some(Item(r.crate, r.path + [r.seg]))
    else None
  }

  ghost function Walked(ix: Index, start: Target, segs: seq<string>, seen: set<Ref>): Option<Target>
    requires WellLoaded(ix)
    decreases Unseen(ix, seen), 1, |segs|
  {
    if segs == [] then Some(start) else
    var before := Walked(ix, start, segs[..|segs| - 1], seen);
    if before.None? then None else
    var seg := segs[|segs| - 1];
    if seg == "" then before
    else if before.value.Item? then None
    else if seg == "super" then Some(Mod(before.value.crate, Parent(before.value.path)))
    else Answer(ix, Ref(before.value.crate, before.value.path, seg), seen)
  }

  // ---- what a name means

  /** `t` is what `r` names by a derivation at most `n` aliases deep. A loaded child module hides every
      other meaning of its name; there is no `seen` here. */
  ghost predicate Derives(ix: Index, n: nat, r: Ref, t: Target)
    requires WellLoaded(ix)
    decreases n, 0, 0
  {
    n > 0 && (r.crate, r.path) in ix &&
    var mod := ix[(r.crate, r.path)];
    if LoadedChild(ix, r) then t == Mod(r.crate, mod.children[r.seg])
    else
      || (r.seg in mod.aliases && var route := RouteOf(mod, mod.aliases[r.seg]); Walks(ix, n - 1, route.start, route.rest, t))
      || (Defined(mod, r.seg) && t == Item(r.crate, r.path + [r.seg]))
  }

  /** Following `segs` from `start` leads to `t`, through modules only. */
  ghost predicate Walks(ix: Index, n: nat, start: Target, segs: seq<string>, t: Target)
    requires WellLoaded(ix)
    decreases n, 1, |segs|, 1
  {
    if segs == [] then t == start
    else
      var front, seg := segs[..|segs| - 1], segs[|segs| - 1];
      exists mid :: Walks(ix, n, start, front, mid) && Steps(ix, n, mid, seg, t)
  }

  ghost predicate Steps(ix: Index, n: nat, mid: Target, seg: string, t: Target)
    requires WellLoaded(ix)
    decreases n, 1, 0, 0
  {
    if seg == "" then t == mid
    else if mid.Item? then false
    else if seg == "super" then t == Mod(mid.crate, Parent(mid.path))
    else Derives(ix, n, Ref(mid.crate, mid.path, seg), t)
  }

  /** Some derivation gives `r` the meaning `t`. */
  ghost predicate Means(ix: Index, r: Ref, t: Target)
    requires WellLoaded(ix)
  {
    exists n :: Derives(ix, n, r, t)
  }

  /** A name a module defines, or implements methods for, means that item unless a loaded child module has it;
      a loaded child module's name means the module and nothing else. */
  lemma {:induction false} OwnMeaning(ix: Index, r: Ref, t: Target)
    requires WellLoaded(ix) && (r.crate, r.path) in ix
    ensures var mod := ix[(r.crate, r.path)];
      if r.seg in mod.children && (r.crate, mod.children[r.seg]) in ix
      then Means(ix, r, t) <==> t == Mod(r.crate, mod.children[r.seg])
      else r.seg in mod.defs || r.seg in mod.implItems ==> Means(ix, r, Item(r.crate, r.path + [r.seg]))
  {
    if LoadedChild(ix, r) {
      if t == Mod(r.crate, ix[(r.crate, r.path)].children[r.seg]) { assert Derives(ix, 1, r, t); }
    } else if Defined(ix[(r.crate, r.path)], r.seg) {
      assert Derives(ix, 1, r, Item(r.crate, r.path + [r.seg]));
    }
  }

  // ---- the answer is a meaning

  lemma {:induction false} LookupDerives(ix: Index, r: Ref, seen: set<Ref>)
    requires WellLoaded(ix)
    ensures Answer(ix, r, seen).Some? ==> Derives(ix, Unseen(ix, seen) + 1, r, Answer(ix, r, seen).value)
    decreases Unseen(ix, seen), 0, 0
  {
    hide Unseen;
    if r !in seen && IsAlias(ix, r) && !LoadedChild(ix, r) {
      var mod := ix[(r.crate, r.path)];
      var route := RouteOf(mod, mod.aliases[r.seg]);
      SeeOne(ix, seen, r);
      WalkDerives(ix, route.start, route.rest, seen + {r});
      var used := Walked(ix, route.start, route.rest, seen + {r});
      if used.Some? {
        WalksMore(ix, Unseen(ix, seen + {r}) + 1, Unseen(ix, seen), route.start, route.rest, used.value);
      }
    }
  }

  lemma {:induction false} WalkDerives(ix: Index, start: Target, segs: seq<string>, seen: set<Ref>)
    requires WellLoaded(ix)
    ensures Walked(ix, start, segs, seen).Some? ==>
      Walks(ix, Unseen(ix, seen) + 1, start, segs, Walked(ix, start, segs, seen).value)
    decreases Unseen(ix, seen), 1, |segs|
  {
    hide Unseen;
    if segs != [] {
      WalkDerives(ix, start, segs[..|segs| - 1], seen);
      var before := Walked(ix, start, segs[..|segs| - 1], seen);
      if before.Some? && before.value.Mod? {
        LookupDerives(ix, Ref(before.value.crate, before.value.path, segs[|segs| - 1]), seen);
      }
    }
  }

  /** A derivation is also one with a larger bound. */
  lemma {:induction false} DerivesMore(ix: Index, m: nat, n: nat, r: Ref, t: Target)
    requires WellLoaded(ix) && m <= n && Derives(ix, m, r, t)
    ensures Derives(ix, n, r, t)
    decreases m, 0, 0
  {
    if !LoadedChild(ix, r) && IsAlias(ix, r) {
      var mod := ix[(r.crate, r.path)];
      var route := RouteOf(mod, mod.aliases[r.seg]);
      if Walks(ix, m - 1, route.start, route.rest, t) {
        WalksMore(ix, m - 1, n - 1, route.start, route.rest, t);
      }
    }
  }

  lemma {:induction false} WalksMore(ix: Index, m: nat, n: nat, start: Target, segs: seq<string>, t: Target)
    requires WellLoaded(ix) && m <= n && Walks(ix, m, start, segs, t)
    ensures Walks(ix, n, start, segs, t)
    decreases m, 1, |segs|
  {
    if segs != [] {
      var mid :| Walks(ix, m, start, segs[..|segs| - 1], mid) && Steps(ix, m, mid, segs[|segs| - 1], t);
      WalksMore(ix, m, n, start, segs[..|segs| - 1], mid);
      StepsMore(ix, m, n, mid, segs[|segs| - 1], t);
    }
  }

  lemma {:induction false} StepsMore(ix: Index, m: nat, n: nat, mid: Target, seg: string, t: Target)
    requires WellLoaded(ix) && m <= n && Steps(ix, m, mid, seg, t)
    ensures Steps(ix, n, mid, seg, t)
    decreases m, 1, 0
  {
    if seg != "" && mid.Mod? && seg != "super" {
      DerivesMore(ix, m, n, Ref(mid.crate, mid.path, seg), t);
    }
  }

  /** An item meaning is a definition, or a type with an impl, of a loaded module. */
  ghost predicate IsItem(ix: Index, t: Target) {
    && t.Item? && t.path != [] && (t.crate, Parent(t.path)) in ix
    && Defined(ix[(t.crate, Parent(t.path))], t.path[|t.path| - 1])
  }

  lemma {:induction false} DerivedItem(ix: Index, n: nat, r: Ref, t: Target)
    requires WellLoaded(ix) && Derives(ix, n, r, t) && t.Item?
    ensures IsItem(ix, t)
    decreases n, 0, 0
  {
    if !LoadedChild(ix, r) {
      var mod := ix[(r.crate, r.path)];
      if Defined(mod, r.seg) && t == Item(r.crate, r.path + [r.seg]) {
      } else {
        var route := RouteOf(mod, mod.aliases[r.seg]);
        WalkedItem(ix, n - 1, route.start, route.rest, t);
      }
    }
  }

  lemma {:induction false} WalkedItem(ix: Index, n: nat, start: Target, segs: seq<string>, t: Target)
    requires WellLoaded(ix) && start.Mod? && Walks(ix, n, start, segs, t) && t.Item?
    ensures IsItem(ix, t)
    decreases n, 1, |segs|
  {
    var mid :| Walks(ix, n, start, segs[..|segs| - 1], mid) && Steps(ix, n, mid, segs[|segs| - 1], t);
    if mid.Item? {
      WalkedItem(ix, n, start, segs[..|segs| - 1], mid);
    } else {
      DerivedItem(ix, n, Ref(mid.crate, mid.path, segs[|segs| - 1]), t);
    }
  }

  // ---- every meaning is found

  /** A name has at most one module meaning. */
  lemma {:induction false} OneModule(ix: Index, m: nat, n: nat, r: Ref, t: Target, t': Target)
    requires WellLoaded(ix) && Derives(ix, m, r, t) && Derives(ix, n, r, t') && t.Mod? && t'.Mod?
    ensures t == t'
    decreases m, 0, 0
  {
    if !LoadedChild(ix, r) {
      var mod := ix[(r.crate, r.path)];
      var route := RouteOf(mod, mod.aliases[r.seg]);
      OneWalk(ix, m - 1, n - 1, route.start, route.rest, t, t');
    }
  }

  lemma {:induction false} OneWalk(ix: Index, m: nat, n: nat, start: Target, segs: seq<string>, t: Target, t': Target)
    requires WellLoaded(ix) && Walks(ix, m, start, segs, t) && Walks(ix, n, start, segs, t') && t.Mod? && t'.Mod?
    ensures t == t'
    decreases m, 1, |segs|
  {
    if segs != [] {
      var seg := segs[|segs| - 1];
      var mid :| Walks(ix, m, start, segs[..|segs| - 1], mid) && Steps(ix, m, mid, seg, t);
      var mid' :| Walks(ix, n, start, segs[..|segs| - 1], mid') && Steps(ix, n, mid', seg, t');
      OneWalk(ix, m, n, start, segs[..|segs| - 1], mid, mid');
      if seg != "" && seg != "super" {
        OneModule(ix, m, n, Ref(mid.crate, mid.path, seg), t, t');
      }
    }
  }

  /** No name in `seen` has a module meaning within `n`. */
  ghost predicate NoModule(ix: Index, n: nat, seen: set<Ref>)
    requires WellLoaded(ix)
  {
    forall r, t: Target :: r in seen && t.Mod? ==> !Derives(ix, n, r, t)
  }

  /** No name in `seen` has any meaning within `n`. */
  ghost predicate NoMeaning(ix: Index, n: nat, seen: set<Ref>)
    requires WellLoaded(ix)
  {
    forall r, t :: r in seen ==> !Derives(ix, n, r, t)
  }

  lemma NoModuleLess(ix: Index, m: nat, n: nat, seen: set<Ref>)
    requires WellLoaded(ix) && m <= n && NoModule(ix, n, seen)
    ensures NoModule(ix, m, seen)
  {
    hide Derives;
    forall r, t: Target | r in seen && t.Mod? && Derives(ix, m, r, t)
      ensures false
    {
      DerivesMore(ix, m, n, r, t);
    }
  }

  lemma NoMeaningLess(ix: Index, m: nat, n: nat, seen: set<Ref>)
    requires WellLoaded(ix) && m <= n && NoMeaning(ix, n, seen)
    ensures NoMeaning(ix, m, seen) && NoModule(ix, m, seen)
  {
    hide Derives;
    forall r, t | r in seen && Derives(ix, m, r, t)
      ensures false
    {
      DerivesMore(ix, m, n, r, t);
    }
  }

  /** A module meaning is found, whatever was seen on the way, if nothing seen has one as shallow. */
  lemma {:induction false} FindsModule(ix: Index, n: nat, r: Ref, t: Target, seen: set<Ref>)
    requires WellLoaded(ix) && Derives(ix, n, r, t) && t.Mod? && NoModule(ix, n, seen)
    ensures Answer(ix, r, seen) == Some(t)
    decreases n, 0, 0
  {
    if !LoadedChild(ix, r) {
      NoModuleLess(ix, n - 1, n, seen);
      if u: Target :| u.Mod? && Derives(ix, n - 1, r, u) {
        OneModule(ix, n - 1, n, r, u, t);
        FindsModule(ix, n - 1, r, t, seen);
      } else {
        FindsDeeper(ix, n, r, t, seen);
      }
    }
  }

  lemma {:induction false} FindsDeeper(ix: Index, n: nat, r: Ref, t: Target, seen: set<Ref>)
    requires WellLoaded(ix) && n > 0 && Derives(ix, n, r, t) && t.Mod? && !LoadedChild(ix, r)
    requires r !in seen && NoModule(ix, n - 1, seen + {r})
    ensures Answer(ix, r, seen) == Some(t)
    decreases n - 1, 2, 0
  {
    var mod := ix[(r.crate, r.path)];
    var route := RouteOf(mod, mod.aliases[r.seg]);
    WalkFindsModule(ix, n - 1, route.start, route.rest, t, seen + {r});
  }

  lemma {:induction false} WalkFindsModule(ix: Index, n: nat, start: Target, segs: seq<string>, t: Target, seen: set<Ref>)
    requires WellLoaded(ix) && Walks(ix, n, start, segs, t) && t.Mod? && NoModule(ix, n, seen)
    ensures Walked(ix, start, segs, seen) == Some(t)
    decreases n, 1, |segs|
  {
    if segs != [] {
      var seg := segs[|segs| - 1];
      var mid :| Walks(ix, n, start, segs[..|segs| - 1], mid) && Steps(ix, n, mid, seg, t);
      WalkFindsModule(ix, n, start, segs[..|segs| - 1], mid, seen);
      if seg != "" && seg != "super" {
        FindsModule(ix, n, Ref(mid.crate, mid.path, seg), t, seen);
      }
    }
  }

  /** Any meaning makes the search answer, if nothing seen has a meaning as shallow. */
  lemma {:induction false} FindsSome(ix: Index, n: nat, r: Ref, t: Target, seen: set<Ref>)
    requires WellLoaded(ix) && Derives(ix, n, r, t) && NoMeaning(ix, n, seen)
    ensures Answer(ix, r, seen).Some?
    decreases n, 0, 0
  {
    if !LoadedChild(ix, r) && !Defined(ix[(r.crate, r.path)], r.seg) {
      NoMeaningLess(ix, n - 1, n, seen);
      var k: nat := n - 1;
      if u :| Derives(ix, k, r, u) {
        FindsSome(ix, k, r, u, seen);
      } else {
        var mod := ix[(r.crate, r.path)];
        var route := RouteOf(mod, mod.aliases[r.seg]);
        WalkFindsSome(ix, n - 1, route.start, route.rest, t, seen + {r});
      }
    }
  }

  lemma {:induction false} WalkFindsSome(ix: Index, n: nat, start: Target, segs: seq<string>, t: Target, seen: set<Ref>)
    requires WellLoaded(ix) && start.Mod? && Walks(ix, n, start, segs, t) && NoMeaning(ix, n, seen)
    ensures Walked(ix, start, segs, seen).Some?
    decreases n, 1, |segs|
  {
    if segs != [] {
      var seg := segs[|segs| - 1];
      var mid :| Walks(ix, n, start, segs[..|segs| - 1], mid) && Steps(ix, n, mid, seg, t);
      if seg == "" {
        WalkFindsSome(ix, n, start, segs[..|segs| - 1], mid, seen);
      } else {
        NoMeaningLess(ix, n, n, seen);
        WalkFindsModule(ix, n, start, segs[..|segs| - 1], mid, seen);
        if seg != "super" {
          FindsSome(ix, n, Ref(mid.crate, mid.path, seg), t, seen);
        }
      }
    }
  }

  /** The guard against cyclic aliases never costs an answer: the search answers exactly the names that
      mean something, with a module if and only if the name means that module, and otherwise with an item
      of a loaded module. */
  lemma {:induction false} LookupExactly(ix: Index, r: Ref)
    requires WellLoaded(ix)
    ensures Answer(ix, r, {}).Some? <==> exists t :: Means(ix, r, t)
    ensures forall t: Target :: t.Mod? ==> (Answer(ix, r, {}) == Some(t) <==> Means(ix, r, t))
    ensures Answer(ix, r, {}).Some? ==> Means(ix, r, Answer(ix, r, {}).value)
    ensures Answer(ix, r, {}).Some? && Answer(ix, r, {}).value.Item? ==> IsItem(ix, Answer(ix, r, {}).value)
  {
    hide Derives, Answer, Unseen;
    LookupDerives(ix, r, {});
    if Answer(ix, r, {}).Some? {
      assert Means(ix, r, Answer(ix, r, {}).value);
      if Answer(ix, r, {}).value.Item? { DerivedItem(ix, Unseen(ix, {}) + 1, r, Answer(ix, r, {}).value); }
    }
    forall t | Means(ix, r, t)
      ensures Answer(ix, r, {}).Some? && (t.Mod? ==> Answer(ix, r, {}) == Some(t))
    {
      var n :| Derives(ix, n, r, t);
      FindsSome(ix, n, r, t, {});
      if t.Mod? { FindsModule(ix, n, r, t, {}); }
    }
  }

  // ---- which item the search gives: it follows the aliases as far as they go and do not repeat, and takes
  // the last definition on the way

  /** No meaning of the name is a module. */
  ghost predicate NeverModule(ix: Index, r: Ref)
    requires WellLoaded(ix)
  {
    forall n, t: Target :: t.Mod? ==> !Derives(ix, n, r, t)
  }

  ghost predicate WalkMeans(ix: Index, start: Target, segs: seq<string>, m: Target)
    requires WellLoaded(ix)
  {
    m.Mod? && exists n :: Walks(ix, n, start, segs, m)
  }

  /** The use path of `r` leads through modules to `m`, and then names `s` in it. */
  ghost predicate OnwardAt(ix: Index, r: Ref, k: nat, m: Target, s: Ref)
    requires WellLoaded(ix)
  {
    IsAlias(ix, r) && !LoadedChild(ix, r) &&
    var route := RouteOf(ix[(r.crate, r.path)], ix[(r.crate, r.path)].aliases[r.seg]);
    && k < |route.rest| && WalkMeans(ix, route.start, route.rest[..k], m)
    && route.rest[k] != "" && route.rest[k] != "super" && (forall i :: k < i < |route.rest| ==> route.rest[i] == "")
    && s == Ref(m.crate, m.path, route.rest[k])
  }

  ghost predicate Onward(ix: Index, r: Ref, s: Ref)
    requires WellLoaded(ix)
  {
    exists k: nat, m: Target :: OnwardAt(ix, r, k, m, s)
  }

  /** The names an alias leads through, up to the end or the first repeat. */
  ghost predicate Trail(ix: Index, trail: seq<Ref>)
    requires WellLoaded(ix)
  {
    && trail != []
    && (forall i, j :: 0 <= i && j == i + 1 && j < |trail| ==> Onward(ix, trail[i], trail[j]))
    && (forall i, j :: 0 <= i < j < |trail| ==> trail[i] != trail[j])
  }

  ghost predicate WholeTrail(ix: Index, trail: seq<Ref>)
    requires WellLoaded(ix)
  {
    Trail(ix, trail) && forall s :: Onward(ix, trail[|trail| - 1], s) ==> s in trail
  }

  predicate HasDef(ix: Index, r: Ref) {
    (r.crate, r.path) in ix && Defined(ix[(r.crate, r.path)], r.seg)
  }

  /** The last definition on the trail. */
  function LastDef(ix: Index, trail: seq<Ref>): Option<Target>
    decreases |trail|
  {
    if trail == [] then None else
    var later := LastDef(ix, trail[1..]);
    if later.Some? then later
    else if HasDef(ix, trail[0]) then Some(Item(trail[0].crate, trail[0].path + [trail[0].seg]))
    else None
  }

  /** Following an alias whose use path ends in an item. */
  lemma {:induction false} ItemOnward(ix: Index, n: nat, start: Target, segs: seq<string>, t: Target) returns (k: nat, m: Target)
    requires WellLoaded(ix) && start.Mod? && Walks(ix, n, start, segs, t) && t.Item?
    ensures k < |segs| && m.Mod? && Walks(ix, n, start, segs[..k], m)
    ensures segs[k] != "" && segs[k] != "super" && forall i :: k < i < |segs| ==> segs[i] == ""
    decreases |segs|
  {
    hide Derives;
    var last := |segs| - 1;
    var mid :| Walks(ix, n, start, segs[..last], mid) && Steps(ix, n, mid, segs[last], t);
    if mid.Mod? {
      k, m := last, mid;
    } else {
      k, m := ItemOnward(ix, n, start, segs[..last], mid);
      assert segs[..last][..k] == segs[..k] && segs[..last][k] == segs[k];
    }
  }

  lemma {:induction false} BlankTail(ix: Index, start: Target, segs: seq<string>, k: nat, seen: set<Ref>)
    requires WellLoaded(ix) && k <= |segs| && forall i :: k <= i < |segs| ==> segs[i] == ""
    ensures Walked(ix, start, segs, seen) == Walked(ix, start, segs[..k], seen)
    decreases |segs|
  {
    hide Answer;
    if k == |segs| {
      assert segs[..k] == segs;
    } else {
      BlankTail(ix, start, segs[..|segs| - 1], k, seen);
      assert segs[..|segs| - 1][..k] == segs[..k];
    }
  }

  lemma SeenNoModule(ix: Index, n: nat, seen: set<Ref>)
    requires WellLoaded(ix) && forall r :: r in seen ==> NeverModule(ix, r)
    ensures NoModule(ix, n, seen)
  {
    hide Derives;
  }

  /** The alias leads on to what the next name is answered with. */
  lemma {:induction false} OnwardWalked(ix: Index, r: Ref, s: Ref, seen: set<Ref>)
    requires WellLoaded(ix) && Onward(ix, r, s) && forall x :: x in seen ==> NeverModule(ix, x)
    ensures IsAlias(ix, r) && !LoadedChild(ix, r)
    ensures var route := RouteOf(ix[(r.crate, r.path)], ix[(r.crate, r.path)].aliases[r.seg]);
            Walked(ix, route.start, route.rest, seen) == Answer(ix, s, seen)
  {
    hide Answer, Walks, RouteOf, NeverModule, NoModule;
    var k: nat, m: Target :| OnwardAt(ix, r, k, m, s);
    var route := RouteOf(ix[(r.crate, r.path)], ix[(r.crate, r.path)].aliases[r.seg]);
    var n: nat :| Walks(ix, n, route.start, route.rest[..k], m);
    SeenNoModule(ix, n, seen);
    WalkFindsModule(ix, n, route.start, route.rest[..k], m, seen);
    assert route.rest[..k + 1][..k] == route.rest[..k];
    BlankTail(ix, route.start, route.rest, k + 1, seen);
  }

  lemma RouteStart(mod: Module, full: seq<string>)
    requires full != []
    ensures RouteOf(mod, full).start.Mod?
  {
  }

  /** An alias of a name that means no module leads on, or nowhere. */
  lemma {:induction false} NowhereWalked(ix: Index, r: Ref, seen: set<Ref>)
    requires WellLoaded(ix) && IsAlias(ix, r) && !LoadedChild(ix, r) && NeverModule(ix, r) && forall s :: !Onward(ix, r, s)
    ensures var route := RouteOf(ix[(r.crate, r.path)], ix[(r.crate, r.path)].aliases[r.seg]);
            Walked(ix, route.start, route.rest, seen) == None
  {
    var mod := ix[(r.crate, r.path)];
    var route := RouteOf(mod, mod.aliases[r.seg]);
    RouteStart(mod, mod.aliases[r.seg]);
    var used := Walked(ix, route.start, route.rest, seen);
    WalkDerives(ix, route.start, route.rest, seen);
    if used.Some? {
      var n := Unseen(ix, seen) + 1;
      assert Derives(ix, n + 1, r, used.value);
      hide Derives, Walks, RouteOf, Walked, Onward;
      if used.value.Item? { var s := WalkedOnward(ix, r, n, used.value); }
    }
  }

  lemma WalkedOnward(ix: Index, r: Ref, n: nat, t: Target) returns (s: Ref)
    requires WellLoaded(ix) && IsAlias(ix, r) && !LoadedChild(ix, r) && t.Item?
    requires var route := RouteOf(ix[(r.crate, r.path)], ix[(r.crate, r.path)].aliases[r.seg]);
             Walks(ix, n, route.start, route.rest, t)
    ensures Onward(ix, r, s)
  {
    var mod := ix[(r.crate, r.path)];
    var route := RouteOf(mod, mod.aliases[r.seg]);
    RouteStart(mod, mod.aliases[r.seg]);
    hide Walks, RouteOf;
    var k, m := ItemOnward(ix, n, route.start, route.rest, t);
    s := Ref(m.crate, m.path, route.rest[k]);
    assert WalkMeans(ix, route.start, route.rest[..k], m);
    assert OnwardAt(ix, r, k, m, s);
  }

  /** A name that leads on to a module meaning has that meaning. */
  lemma OnwardNeverModule(ix: Index, r: Ref, s: Ref)
    requires WellLoaded(ix) && NeverModule(ix, r) && Onward(ix, r, s)
    ensures NeverModule(ix, s)
  {
    var k: nat, m: Target :| OnwardAt(ix, r, k, m, s);
    var route := RouteOf(ix[(r.crate, r.path)], ix[(r.crate, r.path)].aliases[r.seg]);
    var n: nat :| Walks(ix, n, route.start, route.rest[..k], m);
    forall p: nat, t: Target | t.Mod? && Derives(ix, p, s, t)
      ensures false
    {
      LeadsWalk(ix, n, p, route.start, route.rest, k, m, t);
      var q := n + p;
      assert Derives(ix, q + 1, r, t);
    }
  }

  lemma {:induction false} LeadsWalk(ix: Index, n: nat, p: nat, start: Target, segs: seq<string>, k: nat, m: Target, t: Target)
    requires WellLoaded(ix) && k < |segs| && m.Mod? && Walks(ix, n, start, segs[..k], m)
    requires segs[k] != "" && segs[k] != "super" && forall i :: k < i < |segs| ==> segs[i] == ""
    requires Derives(ix, p, Ref(m.crate, m.path, segs[k]), t)
    ensures Walks(ix, n + p, start, segs, t)
    decreases |segs|
  {
    hide Derives;
    var last := |segs| - 1;
    if k == last {
      WalksMore(ix, n, n + p, start, segs[..k], m);
      DerivesMore(ix, p, n + p, Ref(m.crate, m.path, segs[k]), t);
      WalkAppend(ix, n + p, start, segs, m, t);
    } else {
      assert segs[..last][..k] == segs[..k] && segs[..last][k] == segs[k];
      LeadsWalk(ix, n, p, start, segs[..last], k, m, t);
      WalkAppend(ix, n + p, start, segs, t, t);
    }
  }

  lemma WalkAppend(ix: Index, n: nat, start: Target, segs: seq<string>, mid: Target, t: Target)
    requires WellLoaded(ix) && segs != []
    requires Walks(ix, n, start, segs[..|segs| - 1], mid) && Steps(ix, n, mid, segs[|segs| - 1], t)
    ensures Walks(ix, n, start, segs, t)
  {
    hide Derives, Steps;
  }

  lemma {:induction false} TrailNeverModule(ix: Index, trail: seq<Ref>, i: nat)
    requires WellLoaded(ix) && Trail(ix, trail) && NeverModule(ix, trail[0]) && i < |trail|
    ensures NeverModule(ix, trail[i])
  {
    hide NeverModule, Onward;
    if i > 0 {
      TrailNeverModule(ix, trail, i - 1);
      OnwardNeverModule(ix, trail[i - 1], trail[i]);
    }
  }

  ghost function Names(trail: seq<Ref>): set<Ref> {
    set r | r in trail
  }

  /** From any point of the trail on, with what came before seen, the last definition still to come. */
  lemma {:induction false} TrailAnswer(ix: Index, trail: seq<Ref>, i: nat)
    requires WellLoaded(ix) && WholeTrail(ix, trail) && NeverModule(ix, trail[0]) && i < |trail|
    ensures Answer(ix, trail[i], Names(trail[..i])) == LastDef(ix, trail[i..])
    decreases |trail| - i
  {
    var r, seen := trail[i], Names(trail[..i]);
    var rest := trail[i + 1..];
    assert trail[i..][1..] == rest;
    assert seen + {r} == Names(trail[..i + 1]) by { assert trail[..i + 1] == trail[..i] + [r]; }
    assert r !in seen;
    forall x | x in seen + {r}
      ensures NeverModule(ix, x)
    {
      var j :| 0 <= j < |trail[..i + 1]| && trail[..i + 1][j] == x;
      TrailNeverModule(ix, trail, j);
    }
    TrailNeverModule(ix, trail, i);
    NoChild(ix, r);
    if i + 1 < |trail| { OnwardIsAlias(ix, r, trail[i + 1]); }
    if IsAlias(ix, r) {
      hide Answer, Walked, RouteOf, LastDef, NeverModule, WalkMeans;
      if i + 1 < |trail| {
        TrailAnswer(ix, trail, i + 1);
        OnwardWalked(ix, r, trail[i + 1], seen + {r});
        AnswerStep(ix, r, seen, LastDef(ix, rest));
      } else {
        EndWalked(ix, trail, seen + {r});
        AnswerStep(ix, r, seen, None);
        LastDefEmpty(ix, rest);
      }
      LastDefStep(ix, trail[i..]);
    } else {
      LastDefEmpty(ix, rest);
    }
  }

  lemma NoChild(ix: Index, r: Ref)
    requires WellLoaded(ix) && NeverModule(ix, r)
    ensures !LoadedChild(ix, r)
  {
    if LoadedChild(ix, r) {
      assert Derives(ix, 1, r, Mod(r.crate, ix[(r.crate, r.path)].children[r.seg]));
    }
  }

  lemma {:induction false} LastDefEmpty(ix: Index, trail: seq<Ref>)
    ensures trail == [] ==> LastDef(ix, trail) == None
  {
  }

  lemma {:induction false} LastDefStep(ix: Index, trail: seq<Ref>)
    requires trail != []
    ensures LastDef(ix, trail) == Preferred(ix, trail[0], LastDef(ix, trail[1..]))
  {
  }

  /** The later answer if there is one, else the name's own definition. */
  ghost function Preferred(ix: Index, r: Ref, later: Option<Target>): Option<Target> {
    if later.Some? then later else if HasDef(ix, r) then Some(Item(r.crate, r.path + [r.seg])) else None
  }

  lemma {:induction false} AnswerStep(ix: Index, r: Ref, seen: set<Ref>, used: Option<Target>)
    requires WellLoaded(ix) && IsAlias(ix, r) && !LoadedChild(ix, r) && r !in seen
    requires var route := RouteOf(ix[(r.crate, r.path)], ix[(r.crate, r.path)].aliases[r.seg]);
             Walked(ix, route.start, route.rest, seen + {r}) == used
    ensures Answer(ix, r, seen) == Preferred(ix, r, used)
  {
    hide Walked, RouteOf;
  }

  /** At the end of the trail the alias leads nowhere, or back to a name already seen. */
  lemma EndWalked(ix: Index, trail: seq<Ref>, seen: set<Ref>)
    requires WellLoaded(ix) && WholeTrail(ix, trail) && IsAlias(ix, trail[|trail| - 1]) && !LoadedChild(ix, trail[|trail| - 1])
    requires seen == Names(trail) && forall x :: x in seen ==> NeverModule(ix, x)
    ensures var r := trail[|trail| - 1];
            var route := RouteOf(ix[(r.crate, r.path)], ix[(r.crate, r.path)].aliases[r.seg]);
            Walked(ix, route.start, route.rest, seen) == None
  {
    hide Walked, RouteOf, NeverModule, Onward;
    var r := trail[|trail| - 1];
    if s :| Onward(ix, r, s) {
      OnwardWalked(ix, r, s, seen);
    } else {
      NowhereWalked(ix, r, seen);
    }
  }

  lemma TrailGrows(ix: Index, trail: seq<Ref>, s: Ref)
    requires WellLoaded(ix) && Trail(ix, trail) && Onward(ix, trail[|trail| - 1], s) && s !in trail
    ensures Trail(ix, trail + [s])
  {
    hide Onward;
    var longer := trail + [s];
    assert forall i :: 0 <= i < |trail| ==> longer[i] == trail[i] && trail[i] != s;
  }

  /** Every name has a whole trail. */
  lemma {:induction false} TrailExists(ix: Index, trail: seq<Ref>) returns (whole: seq<Ref>)
    requires WellLoaded(ix) && Trail(ix, trail)
    ensures WholeTrail(ix, whole) && whole != [] && whole[0] == trail[0]
    decreases |AliasRefs(ix) - Names(trail[..|trail| - 1])|
  {
    var last := trail[|trail| - 1];
    assert last !in Names(trail[..|trail| - 1]);
    hide Onward, Trail;
    if s :| Onward(ix, last, s) && s !in trail {
      OnwardIsAlias(ix, last, s);
      TrailGrows(ix, trail, s);
      var longer := trail + [s];
      assert longer[..|longer| - 1] == trail && trail == trail[..|trail| - 1] + [last];
      assert last in Names(trail) && Names(trail[..|trail| - 1]) <= Names(trail);
      FewerElements(AliasRefs(ix) - Names(trail), AliasRefs(ix) - Names(trail[..|trail| - 1]));
      whole := TrailExists(ix, longer);
    } else {
      whole := trail;
    }
  }

  lemma OnwardIsAlias(ix: Index, r: Ref, s: Ref)
    requires WellLoaded(ix) && Onward(ix, r, s)
    ensures IsAlias(ix, r)
  {
  }

  /** The item `r` is answered with: the last definition on its trail. */
  ghost predicate Picks(ix: Index, r: Ref, t: Target)
    requires WellLoaded(ix)
  {
    exists trail :: WholeTrail(ix, trail) && trail != [] && trail[0] == r && LastDef(ix, trail) == Some(t)
  }

  /** Of a name that means no module the search gives the item its alias leads to before its own
      definition: the last definition on the trail of its aliases before that ends or repeats. */
  lemma {:induction false} ItemExactly(ix: Index, r: Ref, t: Target)
    requires WellLoaded(ix) && NeverModule(ix, r)
    ensures Answer(ix, r, {}) == Some(t) <==> Picks(ix, r, t)
  {
    hide Answer, NeverModule, LastDef, WholeTrail, Trail;
    assert Trail(ix, [r]) by { OneName(ix, r); }
    var whole := TrailExists(ix, [r]);
    forall trail | WholeTrail(ix, trail) && trail != [] && trail[0] == r
      ensures Answer(ix, r, {}) == LastDef(ix, trail)
    {
      WholeAnswer(ix, trail);
    }
  }

  lemma OneName(ix: Index, r: Ref)
    requires WellLoaded(ix)
    ensures Trail(ix, [r])
  {
  }

  lemma {:induction false} WholeAnswer(ix: Index, trail: seq<Ref>)
    requires WellLoaded(ix) && WholeTrail(ix, trail) && NeverModule(ix, trail[0])
    ensures Answer(ix, trail[0], {}) == LastDef(ix, trail)
  {
    hide Answer, NeverModule, LastDef;
    TrailAnswer(ix, trail, 0);
    assert Names(trail[..0]) == {} && trail[0..] == trail;
  }

  // ---- the methods

  method Lookup(ix: Index, crate: string, path: seq<string>, seg: string, seen: set<Ref>) returns (t: Option<Target>)
    requires WellLoaded(ix)
    ensures t == Answer(ix, Ref(crate, path, seg), seen)
    decreases Unseen(ix, seen), 0
  {
    var r := Ref(crate, path, seg);
    if r in seen || (crate, path) !in ix { return None; }
    var mod := ix[(crate, path)];
    if LoadedChild(ix, r) { return Some(Mod(crate, mod.children[seg])); }
    if seg in mod.aliases {
      SeeOne(ix, seen, r);
      t := WalkUse(ix, mod, mod.aliases[seg], seen + {r});
      if t.Some? { return; }
    }
    return if Defined(mod, seg) then Some(Item(crate, path + [seg])) else None;
  }

  method WalkUse(ix: Index, mod: Module, full: seq<string>, seen: set<Ref>) returns (t: Option<Target>)
    requires WellLoaded(ix) && full != []
    ensures t == Walked(ix, RouteOf(mod, full).start, RouteOf(mod, full).rest, seen)
    decreases Unseen(ix, seen), 1
  {
    var route := RouteOf(mod, full);
    var target := route.start;
    for i := 0 to |route.rest|
      invariant Walked(ix, route.start, route.rest[..i], seen) == Some(target)
    {
      assert route.rest[..i + 1][..i] == route.rest[..i];
      WalkStops(ix, route.start, route.rest, i + 1, seen);
      var seg := route.rest[i];
      if target.Mod? && seg == "super" {
        target := Mod(target.crate, Parent(target.path));
      } else if seg != "" {
        if target.Item? { return None; }
        var next := Lookup(ix, target.crate, target.path, seg, seen);
        if next.None? { return None; }
        target := next.value;
      }
    }
    assert route.rest[..|route.rest|] == route.rest;
    return Some(target);
  }

  /** A walk that fails part of the way fails. */
  lemma {:induction false} WalkStops(ix: Index, start: Target, segs: seq<string>, k: nat, seen: set<Ref>)
    requires WellLoaded(ix) && k <= |segs|
    ensures Walked(ix, start, segs[..k], seen).None? ==> Walked(ix, start, segs, seen).None?
    decreases |segs|
  {
    if k < |segs| {
      assert segs[..|segs| - 1][..k] == segs[..k];
      WalkStops(ix, start, segs[..|segs| - 1], k, seen);
    } else {
      assert segs[..k] == segs;
    }
  }

  // ---- whole paths

  /** Some module of the crate has an impl of the type that holds the item. */
  ghost predicate ImplHas(ix: Index, crate: string, tyname: string, item: string) {
    exists p :: (crate, p) in ix && tyname in ix[(crate, p)].implItems && item in ix[(crate, p)].implItems[tyname]
  }

  /** The item the name is answered with is a type with that impl item. */
  ghost predicate PicksImpl(ix: Index, r: Ref, item: string)
    requires WellLoaded(ix)
  {
    exists t :: Picks(ix, r, t) && ImplHas(ix, t.crate, LastOf(t.path), item)
  }

  /** A name answered with an item means no module and picks that item; one answered with a module means it. */
  lemma {:induction false} AnswerPicks(ix: Index, r: Ref)
    requires WellLoaded(ix)
    ensures NeverModule(ix, r) <==> Answer(ix, r, {}).None? || Answer(ix, r, {}).value.Item?
    ensures NeverModule(ix, r) ==> forall t :: Picks(ix, r, t) <==> Answer(ix, r, {}) == Some(t)
  {
    hide Derives, Answer, Picks;
    LookupExactly(ix, r);
    if NeverModule(ix, r) {
      forall t { ItemExactly(ix, r, t); }
    } else {
      var n: nat, t: Target :| t.Mod? && Derives(ix, n, r, t);
      assert Means(ix, r, t);
    }
  }

  /** From a module, the names lead through modules to an item, or to a type of the crate with that
      impl item. */
  ghost predicate Leads(ix: Index, crate: string, path: seq<string>, segs: seq<string>)
    requires WellLoaded(ix)
    decreases |segs|
  {
    segs != [] &&
    var r := Ref(crate, path, segs[0]);
    || (|segs| == 1 && (exists t :: Means(ix, r, t)) && forall t :: Means(ix, r, t) ==> t.Item?)
    || (|segs| == 2 && NeverModule(ix, r) && PicksImpl(ix, r, segs[1]))
    || (|segs| > 1 && exists t: Target :: t.Mod? && Means(ix, r, t) && Leads(ix, t.crate, t.path, segs[1..]))
  }

  function LastOf(path: seq<string>): string {
    if path == [] then "" else path[|path| - 1]
  }

  method FindImpl(ix: Index, crate: string, tyname: string, item: string) returns (b: bool)
    ensures b <==> ImplHas(ix, crate, tyname, item)
  {
    b := false;
    var left := ix.Keys;
    while left != {} && !b
      invariant left <= ix.Keys
      invariant b ==> ImplHas(ix, crate, tyname, item)
      invariant !b ==> forall p :: (crate, p) in ix && (crate, p) !in left ==>
        !(tyname in ix[(crate, p)].implItems && item in ix[(crate, p)].implItems[tyname])
      decreases |left|
    {
      var k := Any(left);
      left := left - {k};
      b := k.0 == crate && tyname in ix[k].implItems && item in ix[k].implItems[tyname];
    }
  }

  /** The walk along the segments of a path. */
  method Follow(ix: Index, crate0: string, path0: seq<string>, segs: seq<string>) returns (b: bool)
    requires WellLoaded(ix)
    ensures b <==> Leads(ix, crate0, path0, segs)
  {
    hide Means, Answer, NeverModule, Picks;
    var crate, cur := crate0, path0;
    for i := 0 to |segs|
      invariant Leads(ix, crate0, path0, segs) <==> Leads(ix, crate, cur, segs[i..])
    {
      var rest := segs[i..];
      var r := Ref(crate, cur, segs[i]);
      LookupExactly(ix, r);
      AnswerPicks(ix, r);
      var found := Lookup(ix, crate, cur, segs[i], {});
      if |segs| - i == 1 { return found.Some? && found.value.Item?; }
      if |segs| - i == 2 && found.Some? && found.value.Item? {
        b := FindImpl(ix, found.value.crate, LastOf(found.value.path), segs[|segs| - 1]);
        return;
      }
      if found.None? || found.value.Item? { return false; }
      assert rest[1..] == segs[i + 1..];
      crate, cur := found.value.crate, found.value.path;
    }
    return false;
  }

  datatype Begin = Begin(crate: string, path: seq<string>, segs: seq<string>)

  /** The module a path in a comment starts from: the crate root unless the first name says otherwise,
      one level up for each further `super`; None where that leaves the crate. */
  function BeginOf(mod: Module, segs: seq<string>): Option<Begin>
    requires segs != []
  {
    var start := Start(mod, segs[0]);
    if start.None? then Some(Begin(mod.crate, [], segs))
    else Climb(start.value.crate, start.value.path, segs[1..])
  }

  function Climb(crate: string, path: seq<string>, segs: seq<string>): Option<Begin>
    decreases |segs|
  {
    if segs != [] && segs[0] == "super" then
      if path == [] then None else Climb(crate, Parent(path), segs[1..])
    else Some(Begin(crate, path, segs))
  }

  method Resolves(ix: Index, mod: Module, segs: seq<string>) returns (b: bool)
    requires WellLoaded(ix) && segs != []
    ensures b <==> var begin := BeginOf(mod, segs);
                   begin.Some? && Leads(ix, begin.value.crate, begin.value.path, begin.value.segs)
  {
    hide Leads;
    var start := Start(mod, segs[0]);
    if start.None? {
      b := Follow(ix, mod.crate, [], segs);
      return;
    }
    var cur, rest := start.value.path, segs[1..];
    while rest != [] && rest[0] == "super"
      invariant BeginOf(mod, segs) == Climb(start.value.crate, cur, rest)
      decreases |rest|
    {
      if cur == [] { return false; }
      cur, rest := Parent(cur), rest[1..];
    }
    b := Follow(ix, start.value.crate, cur, rest);
  }

  /** In some module the name means an item of a loaded module. */
  ghost predicate NamesItem(ix: Index, name: string)
    requires WellLoaded(ix)
  {
    exists c, p, t :: Means(ix, Ref(c, p, name), t) && IsItem(ix, t)
  }

  ghost predicate NamesImplItem(ix: Index, name: string) {
    exists c, ty :: ImplHas(ix, c, ty, name)
  }

  /** A path that resolves ends at an item of a loaded module or of an impl in one. */
  lemma {:induction false} LeadsToItem(ix: Index, crate: string, path: seq<string>, segs: seq<string>)
    requires WellLoaded(ix) && Leads(ix, crate, path, segs)
    ensures NamesItem(ix, LastOf(segs)) || NamesImplItem(ix, LastOf(segs))
    decreases |segs|
  {
    hide Means, Answer, ImplHas, IsItem, NeverModule, Picks;
    var r := Ref(crate, path, segs[0]);
    LookupExactly(ix, r);
    if |segs| > 1 {
      if t: Target :| t.Mod? && Means(ix, r, t) && Leads(ix, t.crate, t.path, segs[1..]) {
        LeadsToItem(ix, t.crate, t.path, segs[1..]);
      }
    }
  }
}
