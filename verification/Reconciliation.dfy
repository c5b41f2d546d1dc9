/** The three-way planner: one action per path, whole subtrees at directory/file clashes. */
module Reconciliation {
  import opened Options
  import opened Paths
  import opened Manifests

  datatype Action = Unchanged | Upload | Download | Merge | Conflict

  datatype PlannedPath = PlannedPath(path: Path, action: Action)

  datatype PlanResult =
    | Reconciled(paths: seq<PlannedPath>)
    | WorkspaceIdMismatch(manifestWorkspaceId: string, currentWorkspaceId: string)

  function Keys(base: Entries, local: Entries, remote: Entries): set<Path> {
    base.Keys + local.Keys + remote.Keys
  }

  predicate IsDir(m: Entries, p: Path) {
    p in m && m[p].Directory?
  }

  /** A directory on exactly one side. */
  predicate Structural(local: Entries, remote: Entries, p: Path) {
    IsDir(local, p) != IsDir(remote, p)
  }

  predicate SubtreesEqual(left: Entries, right: Entries, root: Path) {
    forall p | p in left.Keys + right.Keys && AtOrUnder(root, p) :: EntriesEqual(Get(left, p), Get(right, p))
  }

  lemma SubtreeContent(left: Entries, right: Entries, root: Path)
    ensures SubtreesEqual(left, right, root) <==> forall p | AtOrUnder(root, p) :: At(left, p) == At(right, p)
  {
  }

  function ReconcileEntry(base: Option<Entry>, local: Option<Entry>, remote: Option<Entry>): Action {
    if EntriesEqual(local, remote) then Unchanged
    else if EntriesEqual(base, local) then Download
    else if EntriesEqual(base, remote) then Upload
    else if local.Some? && local.value.File? && remote.Some? && remote.value.File? then Merge
    else Conflict
  }

  function ActionAt(base: Entries, local: Entries, remote: Entries, p: Path): Action {
    if Structural(local, remote, p) then
      if SubtreesEqual(base, local, p) then Download
      else if SubtreesEqual(base, remote, p) then Upload
      else Conflict
    else
      ReconcileEntry(Get(base, p), Get(local, p), Get(remote, p))
  }

  /** A directory/file clash that neither side inherited from the base. */
  predicate Clash(base: Entries, local: Entries, remote: Entries, p: Path) {
    Structural(local, remote, p) && ActionAt(base, local, remote, p) == Conflict
  }

  /** Some path above `p` clashes, so `p` travels with that subtree. */
  ghost predicate Covered(base: Entries, local: Entries, remote: Entries, p: Path) {
    exists q :: Under(q, p) && Clash(base, local, remote, q)
  }

  ghost predicate Planned(base: Entries, local: Entries, remote: Entries, p: Path) {
    p in Keys(base, local, remote) && !Covered(base, local, remote, p)
  }

  ghost predicate Root(base: Entries, local: Entries, remote: Entries, p: Path) {
    Planned(base, local, remote, p) && Clash(base, local, remote, p)
  }

  ghost predicate IsPlan(base: Entries, local: Entries, remote: Entries, plan: seq<PlannedPath>) {
    && (forall i, j | 0 <= i < j < |plan| :: Less(plan[i].path, plan[j].path))
    && (forall i | 0 <= i < |plan| ::
          && Planned(base, local, remote, plan[i].path)
          && plan[i].action == ActionAt(base, local, remote, plan[i].path))
    && (forall p | Planned(base, local, remote, p) :: InPlan(plan, p))
  }

  ghost predicate InPlan(plan: seq<PlannedPath>, p: Path) {
    exists i :: 0 <= i < |plan| && plan[i].path == p
  }

  ghost predicate Differ(a: Entries, b: Entries, root: Path) {
    exists q :: AtOrUnder(root, q) && At(a, q) != At(b, q)
  }

  /** A directory on one side only, and something at or below it changed on either side. */
  ghost predicate SidesClash(base: Entries, local: Entries, remote: Entries, p: Path) {
    At(local, p).Dir? != At(remote, p).Dir? && Differ(base, local, p) && Differ(base, remote, p)
  }

  /** When each action is taken, in terms of what the three manifests hold. */
  ghost predicate ActsByContent(base: Entries, local: Entries, remote: Entries, p: Path, action: Action) {
    var b, l, r := At(base, p), At(local, p), At(remote, p);
    match action
    case Unchanged => l == r
    case Download => l != r && if l.Dir? != r.Dir? then !Differ(base, local, p) else b == l
    case Upload =>
      l != r && if l.Dir? != r.Dir? then Differ(base, local, p) && !Differ(base, remote, p) else b == r
    case Merge => l.Data? && r.Data? && l != r && b != l && b != r
    case Conflict =>
      l != r && if l.Dir? != r.Dir? then SidesClash(base, local, remote, p)
                else b != l && b != r && (l == Absent || r == Absent)
  }

  /** The loop keeps the clash roots met so far; because a directory sorts before its contents,
      skipping below them leaves exactly the planned paths. */
  method PlanReconciliation(base: Manifest, local: Manifest, remote: Manifest) returns (r: PlanResult)
    ensures r.WorkspaceIdMismatch? <==>
      base.workspaceId != local.workspaceId || base.workspaceId != remote.workspaceId
    ensures r.WorkspaceIdMismatch? ==> r == WorkspaceIdMismatch(local.workspaceId, base.workspaceId)
    ensures r.Reconciled? ==> IsPlan(base.entries, local.entries, remote.entries, r.paths)
    ensures r.Reconciled? ==> forall p :: InPlan(r.paths, p) <==>
      && p in base.entries.Keys + local.entries.Keys + remote.entries.Keys
      && !exists q :: Under(q, p) && SidesClash(base.entries, local.entries, remote.entries, q)
    ensures r.Reconciled? ==> forall i | 0 <= i < |r.paths| ::
      ActsByContent(base.entries, local.entries, remote.entries, r.paths[i].path, r.paths[i].action)
  {
    if base.workspaceId != local.workspaceId || base.workspaceId != remote.workspaceId {
      return WorkspaceIdMismatch(local.workspaceId, base.workspaceId);
    }
    var b, l, m := base.entries, local.entries, remote.entries;
    var paths := InOrder(Keys(b, l, m));
    var planned: seq<PlannedPath> := [];
    var roots: seq<Path> := [];
    ghost var rule := RuleOf(b, l, m);
    for i := 0 to |paths|
      invariant Progress(rule, paths, i, planned, roots)
    {
      var path := paths[i];
      SkipsExactlyCovered(rule, paths, i, planned, roots);
      var skip := exists q | q in roots :: Under(q, path);
      if skip {
        SkipStep(rule, paths, i, planned, roots);
      } else {
        PlanStep(rule, paths, i, planned, roots);
        planned := planned + [PlannedPath(path, ActionAt(b, l, m, path))];
        roots := if Clash(b, l, m, path) then roots + [path] else roots;
      }
    }
    PlanDone(b, l, m, paths, planned, roots);
    forall p {
      ActionByContents(b, l, m, p);
    }
    r := Reconciled(planned);
  }

  lemma ActionByContents(b: Entries, l: Entries, m: Entries, p: Path)
    ensures ActsByContent(b, l, m, p, ActionAt(b, l, m, p))
    ensures Clash(b, l, m, p) <==> SidesClash(b, l, m, p)
  {
    ActionIsDecided(b, l, m, p);
    SubtreeContent(b, l, p);
    SubtreeContent(b, m, p);
  }

  /** What the loop needs to know of three manifests: their paths, the clashes and the actions. */
  datatype Rule = Rule(keys: set<Path>, clash: Path -> bool, action: Path -> Action)

  ghost function RuleOf(b: Entries, l: Entries, m: Entries): Rule {
    Rule(Keys(b, l, m), p => Clash(b, l, m, p), p => ActionAt(b, l, m, p))
  }

  ghost predicate CoveredBy(rule: Rule, p: Path) {
    exists q :: Under(q, p) && q in rule.keys && rule.clash(q)
  }

  /** After `i` paths: `planned` holds exactly the planned ones among them, in order, and every
      clash met lies at or below a root. */
  ghost predicate Progress(rule: Rule, paths: seq<Path>, i: nat, planned: seq<PlannedPath>, roots: seq<Path>) {
    && Ascending(paths) && i <= |paths|
    && (forall p :: p in paths <==> p in rule.keys)
    && (forall j, k | 0 <= j < k < |planned| :: Less(planned[j].path, planned[k].path))
    && (forall j, k | 0 <= k < |planned| && i <= j < |paths| :: Less(planned[k].path, paths[j]))
    && (forall k | 0 <= k < |planned| ::
          && planned[k].path in rule.keys && !CoveredBy(rule, planned[k].path)
          && planned[k].action == rule.action(planned[k].path))
    && (forall j | 0 <= j < i && !CoveredBy(rule, paths[j]) :: InPlan(planned, paths[j]))
    && (forall q | q in roots :: q in rule.keys && rule.clash(q))
    && (forall j | 0 <= j < i && rule.clash(paths[j]) :: AtOrBelowSome(roots, paths[j]))
  }

  lemma PlanStep(rule: Rule, paths: seq<Path>, i: nat, planned: seq<PlannedPath>, roots: seq<Path>)
    requires i < |paths| && Progress(rule, paths, i, planned, roots) && !CoveredBy(rule, paths[i])
    ensures Progress(rule, paths, i + 1,
      planned + [PlannedPath(paths[i], rule.action(paths[i]))],
      if rule.clash(paths[i]) then roots + [paths[i]] else roots)
  {
    PlanGrows(planned, PlannedPath(paths[i], rule.action(paths[i])));
    RootsGrow(roots, paths[i]);
    assert paths[i] in paths;
  }

  lemma SkipStep(rule: Rule, paths: seq<Path>, i: nat, planned: seq<PlannedPath>, roots: seq<Path>)
    requires i < |paths| && Progress(rule, paths, i, planned, roots)
    requires CoveredBy(rule, paths[i]) && AtOrBelowSome(roots, paths[i])
    ensures Progress(rule, paths, i + 1, planned, roots)
  {
  }

  /** Below a root met earlier is the same as covered: a clash sorts before what it covers. */
  lemma SkipsExactlyCovered(
    rule: Rule, paths: seq<Path>, i: nat, planned: seq<PlannedPath>, roots: seq<Path>)
    requires i < |paths| && Progress(rule, paths, i, planned, roots)
    ensures CoveredBy(rule, paths[i]) <==> exists q :: q in roots && Under(q, paths[i])
  {
    if CoveredBy(rule, paths[i]) {
      var c :| Under(c, paths[i]) && c in rule.keys && rule.clash(c);
      assert c in paths;
      var j :| 0 <= j < |paths| && paths[j] == c;
      AncestorIsLess(c, paths[i]);
      AscendingIndex(paths, j, i);
      assert AtOrBelowSome(roots, paths[j]);
      var q :| q in roots && AtOrUnder(q, c);
      AtOrUnderTransitive(q, c, paths[i]);
    }
  }

  lemma PlanDone(
    b: Entries, l: Entries, m: Entries, paths: seq<Path>, planned: seq<PlannedPath>, roots: seq<Path>)
    requires Progress(RuleOf(b, l, m), paths, |paths|, planned, roots)
    ensures IsPlan(b, l, m, planned)
  {
    var rule := RuleOf(b, l, m);
    forall p ensures CoveredBy(rule, p) <==> Covered(b, l, m, p) {
      if Covered(b, l, m, p) {
        var q :| Under(q, p) && Clash(b, l, m, q);
        assert q in rule.keys && rule.clash(q);
      }
    }
    forall p | Planned(b, l, m, p) ensures InPlan(planned, p) {
      assert p in paths;
      var j :| 0 <= j < |paths| && paths[j] == p;
    }
  }

  ghost predicate AtOrBelowSome(roots: seq<Path>, p: Path) {
    exists q :: q in roots && AtOrUnder(q, p)
  }

  lemma RootsGrow(roots: seq<Path>, path: Path)
    ensures forall p | AtOrBelowSome(roots, p) :: AtOrBelowSome(roots + [path], p)
    ensures AtOrBelowSome(roots + [path], path)
  {
    assert path in roots + [path];
    forall p | AtOrBelowSome(roots, p) ensures AtOrBelowSome(roots + [path], p) {
      var q :| q in roots && AtOrUnder(q, p);
      assert q in roots + [path];
    }
  }

  lemma PlanGrows(plan: seq<PlannedPath>, item: PlannedPath)
    ensures forall p :: InPlan(plan + [item], p) <==> InPlan(plan, p) || p == item.path
  {
    var longer := plan + [item];
    assert longer[|plan|] == item;
    forall p | InPlan(plan, p) ensures InPlan(longer, p) {
      var k :| 0 <= k < |plan| && plan[k].path == p;
      assert longer[k].path == p;
    }
    forall p | InPlan(longer, p) ensures InPlan(plan, p) || p == item.path {
      var k :| 0 <= k < |longer| && longer[k].path == p;
      if k < |plan| { assert plan[k].path == p; }
    }
  }

  // ---------------------------------------------------------------- coverage

  /** Above every covered path there is a clash root. */
  lemma {:induction false} RootAbove(b: Entries, l: Entries, m: Entries, p: Path) returns (q: Path)
    requires Covered(b, l, m, p)
    ensures Root(b, l, m, q) && Under(q, p)
    decreases |p|
  {
    q :| Under(q, p) && Clash(b, l, m, q);
    if Covered(b, l, m, q) {
      var q' := RootAbove(b, l, m, q);
      UnderTransitive(q', q, p);
      q := q';
    }
  }

  /** Roots never nest: a path lies below at most one. */
  lemma RootIsUnique(b: Entries, l: Entries, m: Entries, p: Path, q: Path, q': Path)
    requires Root(b, l, m, q) && Under(q, p)
    requires Root(b, l, m, q') && Under(q', p)
    ensures q == q'
  {
  }

  ghost predicate PlannedOnce(plan: seq<PlannedPath>, p: Path) {
    exists i :: 0 <= i < |plan| && plan[i].path == p && forall j | 0 <= j < |plan| && plan[j].path == p :: j == i
  }

  ghost predicate BelowOneRoot(b: Entries, l: Entries, m: Entries, p: Path) {
    exists q :: Root(b, l, m, q) && Under(q, p) && forall q' | Root(b, l, m, q') && Under(q', p) :: q' == q
  }

  /** Each path of the three manifests is planned exactly once, or strictly below exactly one root;
      never both. */
  lemma PlanCoversEachPathOnce(b: Entries, l: Entries, m: Entries, plan: seq<PlannedPath>, p: Path)
    requires IsPlan(b, l, m, plan)
    requires p in Keys(b, l, m)
    ensures PlannedOnce(plan, p) <==> !BelowOneRoot(b, l, m, p)
    ensures InPlan(plan, p) <==> PlannedOnce(plan, p)
  {
    if Planned(b, l, m, p) {
      assert InPlan(plan, p);
      var i :| 0 <= i < |plan| && plan[i].path == p;
      forall j | 0 <= j < |plan| && plan[j].path == p ensures j == i { LessIsIrreflexive(p); }
      assert PlannedOnce(plan, p);
    } else {
      var q := RootAbove(b, l, m, p);
      forall q' | Root(b, l, m, q') && Under(q', p) ensures q' == q { RootIsUnique(b, l, m, p, q, q'); }
      assert BelowOneRoot(b, l, m, p);
    }
  }

  // ---------------------------------------------------------------- symmetry

  function Mirror(a: Action): Action {
    match a
    case Upload => Download
    case Download => Upload
    case _ => a
  }

  function MirrorPlan(plan: seq<PlannedPath>): seq<PlannedPath> {
    seq(|plan|, i requires 0 <= i < |plan| => PlannedPath(plan[i].path, Mirror(plan[i].action)))
  }

  lemma ActionMirrors(b: Entries, l: Entries, m: Entries, p: Path)
    ensures ActionAt(b, m, l, p) == Mirror(ActionAt(b, l, m, p))
  {
    ActionIsDecided(b, l, m, p);
    ActionIsDecided(b, m, l, p);
    SubtreeContent(b, l, p);
    SubtreeContent(b, m, p);
    assert AtOrUnder(p, p);
  }

  /** Exchanging the sides exchanges uploads with downloads and changes nothing else. */
  lemma SwappingSidesMirrorsThePlan(b: Entries, l: Entries, m: Entries, plan: seq<PlannedPath>)
    requires IsPlan(b, l, m, plan)
    ensures IsPlan(b, m, l, MirrorPlan(plan))
  {
    forall p ensures ActionAt(b, m, l, p) == Mirror(ActionAt(b, l, m, p)) { ActionMirrors(b, l, m, p); }
    assert forall p :: Clash(b, m, l, p) <==> Clash(b, l, m, p);
    assert forall p :: Covered(b, m, l, p) <==> Covered(b, l, m, p);
    assert forall p :: Planned(b, m, l, p) <==> Planned(b, l, m, p);
    var swapped := MirrorPlan(plan);
    forall p | Planned(b, m, l, p) ensures InPlan(swapped, p) {
      assert InPlan(plan, p);
      var i :| 0 <= i < |plan| && plan[i].path == p;
      assert swapped[i].path == p;
    }
  }

  // ---------------------------------------------------------------- content only

  lemma SubtreesByContent(a: Entries, b: Entries, a': Entries, b': Entries, root: Path)
    requires SameContent(a, a') && SameContent(b, b') && SubtreesEqual(a, b, root)
    ensures SubtreesEqual(a', b', root)
  {
    SubtreeContent(a, b, root);
    forall p | AtOrUnder(root, p) ensures At(a', p) == At(b', p) {
      assert At(a, p) == At(a', p) && At(b, p) == At(b', p);
    }
    SubtreeContent(a', b', root);
  }

  lemma SubtreesIff(a: Entries, b: Entries, a': Entries, b': Entries, root: Path)
    requires SameContent(a, a') && SameContent(b, b')
    ensures SubtreesEqual(a, b, root) <==> SubtreesEqual(a', b', root)
  {
    if SubtreesEqual(a, b, root) { SubtreesByContent(a, b, a', b', root); }
    if SubtreesEqual(a', b', root) { SubtreesByContent(a', b', a, b, root); }
  }

  /** The action as a function of contents and of the two subtree comparisons alone. */
  function Decide(localIsBase: bool, remoteIsBase: bool, base: Content, local: Content, remote: Content): Action {
    if local.Dir? != remote.Dir? then
      if localIsBase then Download else if remoteIsBase then Upload else Conflict
    else if local == remote then Unchanged
    else if base == local then Download
    else if base == remote then Upload
    else if local.Data? && remote.Data? then Merge
    else Conflict
  }

  lemma ActionIsDecided(b: Entries, l: Entries, m: Entries, p: Path)
    ensures ActionAt(b, l, m, p) ==
      Decide(SubtreesEqual(b, l, p), SubtreesEqual(b, m, p), At(b, p), At(l, p), At(m, p))
    ensures Structural(l, m, p) <==> At(l, p).Dir? != At(m, p).Dir?
  {
  }

  lemma ActionByContent(b: Entries, l: Entries, m: Entries, b': Entries, l': Entries, m': Entries, p: Path)
    requires SameContent(b, b') && SameContent(l, l') && SameContent(m, m')
    ensures ActionAt(b, l, m, p) == ActionAt(b', l', m', p)
    ensures Structural(l, m, p) <==> Structural(l', m', p)
    ensures p in Keys(b, l, m) <==> p in Keys(b', l', m')
  {
    SubtreesIff(b, l, b', l', p);
    SubtreesIff(b, m, b', m', p);
    ActionIsDecided(b, l, m, p);
    ActionIsDecided(b', l', m', p);
    assert At(b, p) == At(b', p) && At(l, p) == At(l', p) && At(m, p) == At(m', p);
  }

  /** A plan depends on nothing but contents, so a rescan with equal contents keeps it. */
  lemma PlanDependsOnContentOnly(
    b: Entries, l: Entries, m: Entries, b': Entries, l': Entries, m': Entries, plan: seq<PlannedPath>)
    requires SameContent(b, b') && SameContent(l, l') && SameContent(m, m')
    requires IsPlan(b, l, m, plan)
    ensures IsPlan(b', l', m', plan)
  {
    forall p
      ensures ActionAt(b, l, m, p) == ActionAt(b', l', m', p)
      ensures Clash(b, l, m, p) <==> Clash(b', l', m', p)
      ensures p in Keys(b, l, m) <==> p in Keys(b', l', m')
    { ActionByContent(b, l, m, b', l', m', p); }
    assert forall p :: Covered(b, l, m, p) <==> Covered(b', l', m', p);
    assert forall p :: Planned(b, l, m, p) <==> Planned(b', l', m', p);
  }

  // ---------------------------------------------------------------- one-sided change

  /** Fast-forward: an unchanged local side is never uploaded, merged or put in conflict. */
  lemma FastForward(b: Entries, l: Entries, m: Entries, p: Path)
    requires SameContent(b, l)
    ensures ActionAt(b, l, m, p) == (if At(l, p) == At(m, p) then Unchanged else Download)
    ensures !Clash(b, l, m, p) && !Covered(b, l, m, p)
  {
    forall q ensures SubtreesEqual(b, l, q) {
      SubtreeContent(b, l, q);
      forall r | AtOrUnder(q, r) ensures At(b, r) == At(l, r) {}
    }
    assert At(b, p) == At(l, p);
    assert forall q :: !Clash(b, l, m, q);
  }

  /** The mirror image: when the remote equals the base, the local side simply wins. */
  lemma LocalAhead(b: Entries, l: Entries, m: Entries, p: Path)
    requires SameContent(b, m)
    ensures ActionAt(b, l, m, p) == (if At(l, p) == At(m, p) then Unchanged else Upload)
    ensures !Clash(b, l, m, p) && !Covered(b, l, m, p)
  {
    forall q ensures ActionAt(b, l, m, q) == Mirror(ActionAt(b, m, l, q)) { ActionMirrors(b, m, l, q); }
    forall q ensures !Clash(b, l, m, q) { FastForward(b, m, l, q); }
    FastForward(b, m, l, p);
  }

  /** Equal sides need nothing, whatever the base. */
  lemma EqualSides(b: Entries, l: Entries, m: Entries, p: Path)
    requires SameContent(l, m)
    ensures ActionAt(b, l, m, p) == Unchanged
    ensures !Clash(b, l, m, p) && !Covered(b, l, m, p)
  {
    forall q ensures ActionAt(b, l, m, q) == Unchanged { assert At(l, q) == At(m, q); }
  }
}
