/**
 What the walk reports of each publish, read off the positions alone: where it runs, whether that is certain, and which
 variables are set for it.
 */
module ShellReports {
  import opened Wrappers
  import opened ScopeStack

  /**
   Of the first n positions the i-th is in the body a command at depth d stands in, or in one around it: it is no deeper,
   and no shallower one has ended its body since.
   */
  predicate InScope(ps: seq<Position>, i: nat, n: nat, d: nat)
    requires i < n <= |ps|
  {
    ps[i].depth <= d && forall j :: i < j < n ==> ps[j].depth >= ps[i].depth
  }

  predicate Cds(c: Command) { c.sets.None? && c.isCd }

  /** The directory the cd leads to, unless it has no target or one that does not resolve. */
  function CdTo(c: Command, from: string, resolve: Resolve): Option<string> {
    if c.target.Some? then resolve(from, c.target.value) else None
  }

  /** The start, moved by the resolvable cds in scope among the first i. */
  function DirAt(ps: seq<Position>, i: nat, n: nat, d: nat, start: string, resolve: Resolve): string
    requires i <= n <= |ps|
  {
    if i == 0 then start
    else
      var from := DirAt(ps, i - 1, n, d, start, resolve);
      var c := ps[i - 1].command;
      if InScope(ps, i - 1, n, d) && Cds(c) then CdTo(c, from, resolve).GetOr(from) else from
  }

  /** The i-th position is a cd in scope that leads nowhere known. */
  predicate Loses(ps: seq<Position>, i: nat, n: nat, d: nat, start: string, resolve: Resolve)
    requires i < n <= |ps|
  {
    InScope(ps, i, n, d) && Cds(ps[i].command) && CdTo(ps[i].command, DirAt(ps, i, n, d, start, resolve), resolve).None?
  }

  predicate LostBefore(ps: seq<Position>, i: nat, n: nat, d: nat, start: string, resolve: Resolve)
    requires i <= n <= |ps|
  {
    exists j :: 0 <= j < i && Loses(ps, j, n, d, start, resolve)
  }

  /** The tool's names and those of the environment statements in scope among the first i, in order. */
  function EnvAt(ps: seq<Position>, i: nat, n: nat, d: nat, toolEnv: seq<string>): seq<string>
    requires i <= n <= |ps|
  {
    if i == 0 then toolEnv
    else
      var before := EnvAt(ps, i - 1, n, d, toolEnv);
      var c := ps[i - 1].command;
      if InScope(ps, i - 1, n, d) && c.sets.Some? then before + c.sets.value else before
  }

  /** The scope has just this in it. */
  ghost predicate ScopeIs(s: Scope, ps: seq<Position>, n: nat, d: nat, start: string, toolEnv: seq<string>, resolve: Resolve)
    requires n <= |ps|
  {
    && s.dir == DirAt(ps, n, n, d, start, resolve)
    && (s.uncertain <==> LostBefore(ps, n, n, d, start, resolve))
    && s.env == EnvAt(ps, n, n, d, toolEnv)
  }

  // ---- what is in scope decides ----

  ghost predicate SameScope(ps: seq<Position>, i: nat, n: nat, d: nat, m: nat, e: nat)
    requires i <= n <= |ps| && i <= m <= |ps|
  {
    forall j: nat :: j < i ==> (InScope(ps, j, n, d) <==> InScope(ps, j, m, e))
  }

  lemma {:induction false} SameFolds(ps: seq<Position>, i: nat, n: nat, d: nat, m: nat, e: nat, start: string, toolEnv: seq<string>, resolve: Resolve)
    requires i <= n <= |ps| && i <= m <= |ps| && SameScope(ps, i, n, d, m, e)
    ensures DirAt(ps, i, n, d, start, resolve) == DirAt(ps, i, m, e, start, resolve)
    ensures EnvAt(ps, i, n, d, toolEnv) == EnvAt(ps, i, m, e, toolEnv)
    ensures LostBefore(ps, i, n, d, start, resolve) <==> LostBefore(ps, i, m, e, start, resolve)
  {
    hide InScope;
    if i > 0 {
      SameFolds(ps, i - 1, n, d, m, e, start, toolEnv, resolve);
      assert InScope(ps, i - 1, n, d) <==> InScope(ps, i - 1, m, e);
      assert Loses(ps, i - 1, n, d, start, resolve) <==> Loses(ps, i - 1, m, e, start, resolve);
      hide Loses, DirAt, EnvAt;
      LostOneMore(ps, i - 1, n, d, start, resolve);
      LostOneMore(ps, i - 1, m, e, start, resolve);
    }
  }

  lemma LostOneMore(ps: seq<Position>, i: nat, n: nat, d: nat, start: string, resolve: Resolve)
    requires i < n <= |ps|
    ensures LostBefore(ps, i + 1, n, d, start, resolve)
            <==> LostBefore(ps, i, n, d, start, resolve) || Loses(ps, i, n, d, start, resolve)
  {
    hide Loses;
  }

  /** The scope in which the n-th position, at a depth one may step to, starts. */
  ghost predicate WalkIs(w: Walk, ps: seq<Position>, n: nat, start: string, toolEnv: seq<string>, resolve: Resolve)
    requires n <= |ps| && WellFormed(w)
  {
    && w.lastDepth == (if n == 0 then 0 else ps[n - 1].depth)
    && forall d: nat :: d <= w.lastDepth ==> ScopeIs(w.bodyAt[d], ps, n, d, start, toolEnv, resolve)
  }

  /** The positions in scope of a new one are those in scope at its depth, or at its parent's when its body begins. */
  lemma HereIs(w: Walk, ps: seq<Position>, n: nat, start: string, toolEnv: seq<string>, resolve: Resolve)
    requires n < |ps| && WellFormed(w) && WalkIs(w, ps, n, start, toolEnv, resolve) && CanStep(w, ps[n].depth)
    ensures ScopeIs(Here(w, ps[n].depth), ps, n, ps[n].depth, start, toolEnv, resolve)
  {
    hide DirAt, EnvAt, LostBefore;
    var d := ps[n].depth;
    if d > w.lastDepth {
      assert ScopeIs(w.bodyAt[d - 1], ps, n, d - 1, start, toolEnv, resolve);
      DeeperIsSame(ps, n, d);
      SameFolds(ps, n, n, d, n, d - 1, start, toolEnv, resolve);
    } else {
      assert ScopeIs(w.bodyAt[d], ps, n, d, start, toolEnv, resolve);
    }
  }

  lemma DeeperIsSame(ps: seq<Position>, n: nat, d: nat)
    requires n < |ps| && d > 0 && (n > 0 ==> ps[n - 1].depth < d)
    ensures SameScope(ps, n, n, d, n, d - 1)
  {
    forall j: nat | j < n ensures InScope(ps, j, n, d) <==> InScope(ps, j, n, d - 1) {
      assert InScope(ps, j, n, d) ==> j == n - 1 || ps[n - 1].depth >= ps[j].depth;
    }
  }

  /** After the n-th position the enclosing bodies hold what they held. */
  lemma OuterIsSame(ps: seq<Position>, n: nat, d: nat, start: string, toolEnv: seq<string>, resolve: Resolve, s: Scope)
    requires n < |ps| && d < ps[n].depth && ScopeIs(s, ps, n, d, start, toolEnv, resolve)
    ensures ScopeIs(s, ps, n + 1, d, start, toolEnv, resolve)
  {
    assert SameScope(ps, n, n, d, n + 1, d);
    SameFolds(ps, n, n, d, n + 1, d, start, toolEnv, resolve);
    assert !InScope(ps, n, n + 1, d);
    LostOneMore(ps, n, n + 1, d, start, resolve);
    assert !Loses(ps, n, n + 1, d, start, resolve);
    hide InScope, LostBefore;
  }

  /** Its own body holds that and what it did itself. */
  lemma OwnIsAfter(ps: seq<Position>, n: nat, start: string, toolEnv: seq<string>, resolve: Resolve, here: Scope)
    requires n < |ps| && ScopeIs(here, ps, n, ps[n].depth, start, toolEnv, resolve)
    ensures ScopeIs(ScopeAfter(ps[n].command, here, resolve), ps, n + 1, ps[n].depth, start, toolEnv, resolve)
  {
    var d := ps[n].depth;
    assert SameScope(ps, n, n, d, n + 1, d);
    SameFolds(ps, n, n, d, n + 1, d, start, toolEnv, resolve);
    assert InScope(ps, n, n + 1, d);
    LostOneMore(ps, n, n + 1, d, start, resolve);
    hide InScope, LostBefore;
  }

  lemma StepIs(w: Walk, ps: seq<Position>, n: nat, start: string, toolEnv: seq<string>, resolve: Resolve)
    requires n < |ps| && WellFormed(w) && WalkIs(w, ps, n, start, toolEnv, resolve) && CanStep(w, ps[n].depth)
    ensures WalkIs(Step(w, ps[n], resolve), ps, n + 1, start, toolEnv, resolve)
  {
    hide ScopeIs, ScopeAfter, EarlierAfter, Found;
    var d := ps[n].depth;
    var w' := Step(w, ps[n], resolve);
    HereIs(w, ps, n, start, toolEnv, resolve);
    OwnIsAfter(ps, n, start, toolEnv, resolve, Here(w, d));
    forall e: nat | e <= d ensures ScopeIs(w'.bodyAt[e], ps, n + 1, e, start, toolEnv, resolve) {
      if e < d {
        assert w'.bodyAt[e] == w.bodyAt[e];
        OuterIsSame(ps, n, e, start, toolEnv, resolve, w.bodyAt[e]);
      }
    }
  }

  lemma {:induction false} BeforeStep(ps: seq<Position>, k: nat, w: Walk, resolve: Resolve)
    requires k < |ps| && WellFormed(w) && Steady(ps, w.lastDepth)
    ensures Before(ps, k + 1, w, resolve) == Step(Before(ps, k, w, resolve), ps[k], resolve)
    decreases k
  {
    hide ScopeAfter, EarlierAfter, Found;
    if k > 0 {
      BeforeStep(ps[1..], k - 1, Step(w, ps[0], resolve), resolve);
    }
  }

  lemma {:induction false} BeforeIs(ps: seq<Position>, k: nat, start: string, toolEnv: seq<string>, resolve: Resolve)
    requires k <= |ps| && Steady(ps, 0)
    ensures WalkIs(Before(ps, k, Start(start, toolEnv), resolve), ps, k, start, toolEnv, resolve)
    decreases k
  {
    hide ScopeIs, ScopeAfter, EarlierAfter, Found, Step;
    if k == 0 {
      StartIs(ps, start, toolEnv, resolve);
    } else {
      var w := Start(start, toolEnv);
      BeforeIs(ps, k - 1, start, toolEnv, resolve);
      BeforeStep(ps, k - 1, w, resolve);
      StepIs(Before(ps, k - 1, w, resolve), ps, k - 1, start, toolEnv, resolve);
    }
  }

  lemma StartIs(ps: seq<Position>, start: string, toolEnv: seq<string>, resolve: Resolve)
    ensures WalkIs(Start(start, toolEnv), ps, 0, start, toolEnv, resolve)
  {
  }

  // ---- the reports ----

  /** How many of the first k positions publish. */
  function PublishesBefore(ps: seq<Position>, k: nat): nat
    requires k <= |ps|
  {
    if k == 0 then 0
    else
      var c := ps[k - 1].command;
      PublishesBefore(ps, k - 1) + if c.sets.None? && !c.isCd && c.publish.Some? then 1 else 0
  }

  lemma {:induction false} FoundCounts(ps: seq<Position>, k: nat, start: string, toolEnv: seq<string>, resolve: Resolve)
    requires k <= |ps| && Steady(ps, 0)
    ensures |Before(ps, k, Start(start, toolEnv), resolve).found| == PublishesBefore(ps, k)
    decreases k
  {
    hide ScopeAfter, EarlierAfter, Dedup;
    if k > 0 {
      FoundCounts(ps, k - 1, start, toolEnv, resolve);
      BeforeStep(ps, k - 1, Start(start, toolEnv), resolve);
    }
  }

  /** A list in which each of these names is once, and no other. */
  ghost predicate EachOnce(names: seq<string>, of: seq<string>) {
    && (forall i, j :: 0 <= i < j < |names| ==> names[i] != names[j])
    && (forall x :: x in names <==> x in of)
  }

  lemma {:induction false} DedupOnce(names: seq<string>)
    ensures EachOnce(Dedup(names), names)
  {
    if names != [] {
      DedupOnce(names[..|names| - 1]);
      assert names == names[..|names| - 1] + [names[|names| - 1]];
    }
  }

  /** The report of a publish matched in a body that runs in this directory, with these names set. */
  ghost predicate ReportIs(p: Publish, m: Match, dir: string, lost: bool, env: seq<string>, resolve: Resolve) {
    && p.kind == m.kind
    && (match m.dirArg
        case None => p.cwd == dir && (p.uncertain <==> lost)
        case Some(arg) =>
          if resolve(dir, arg).Some? then p.cwd == resolve(dir, arg).value && (p.uncertain <==> lost) else p.cwd == dir && p.uncertain)
    && if m.kind.GitPush? then EachOnce(p.gitEnv, env + m.gitEnv) else p.gitEnv == []
  }

  lemma FoundIs(c: Command, here: Scope, e: Earlier, resolve: Resolve)
    requires c.sets.None? && !c.isCd && c.publish.Some?
    ensures |Found(c, here, e, resolve)| == 1
    ensures ReportIs(Found(c, here, e, resolve)[0], c.publish.value, here.dir, here.uncertain, here.env, resolve)
  {
    DedupOnce(here.env + c.publish.value.gitEnv);
    hide Dedup;
  }

  /**
   Every publish is reported once, in order: the one at the k-th position in the directory that the cds before it in its own
   body and the enclosing ones lead to, or its own directory word from there; as uncertain exactly when one of those cds has
   no target or does not resolve, or that word does not; and a push with the tool's names, those set before it in those
   bodies, and its own, each once.
   */
  lemma ReportsAreExact(ps: seq<Position>, k: nat, start: string, toolEnv: seq<string>, resolve: Resolve)
    requires k < |ps| && Steady(ps, 0)
    ensures var found := WalkAll(ps, Start(start, toolEnv), resolve).found; var c := ps[k].command;
            && |found| == PublishesBefore(ps, |ps|)
            && (c.sets.None? && !c.isCd && c.publish.Some? ==>
                  && PublishesBefore(ps, k) < |found|
                  && ReportIs(found[PublishesBefore(ps, k)], c.publish.value,
                              DirAt(ps, k, k, ps[k].depth, start, resolve),
                              LostBefore(ps, k, k, ps[k].depth, start, resolve),
                              EnvAt(ps, k, k, ps[k].depth, toolEnv), resolve))
  {
    var w := Start(start, toolEnv);
    FoundCounts(ps, k, start, toolEnv, resolve);
    FoundCounts(ps, |ps|, start, toolEnv, resolve);
    BeforeAll(ps, w, resolve);
    BeforeIs(ps, k, start, toolEnv, resolve);
    var b, c := Before(ps, k, w, resolve), ps[k].command;
    HereIs(b, ps, k, start, toolEnv, resolve);
    hide WalkIs, DirAt, LostBefore, EnvAt, Before, WalkAll, Found, ReportIs;
    if c.sets.None? && !c.isCd && c.publish.Some? {
      var here := Here(b, ps[k].depth);
      FoundIs(c, here, b.earlier, resolve);
      FoundInOrder(ps, k, w, resolve);
      var mine, all := Found(c, here, b.earlier, resolve), WalkAll(ps, w, resolve).found;
      assert (b.found + mine)[|b.found|] == mine[0];
      assert all[|b.found|] == mine[0];
    }
  }

  lemma {:induction false} BeforeAll(ps: seq<Position>, w: Walk, resolve: Resolve)
    requires WellFormed(w) && Steady(ps, w.lastDepth)
    ensures Before(ps, |ps|, w, resolve) == WalkAll(ps, w, resolve)
    decreases |ps|
  {
    hide ScopeAfter, EarlierAfter, Found;
    if ps != [] { BeforeAll(ps[1..], Step(w, ps[0], resolve), resolve); }
  }

  // ---- what an earlier command changed ----

  /** A command that is neither an environment statement nor a cd nor a publish, and changes commits, or files. */
  predicate Makes(c: Command, commits: bool) {
    c.sets.None? && !c.isCd && c.publish.None? && c.change.Some? && if commits then c.change.value.commits else c.change.value.files
  }

  /** The first of these positions to make such a change. */
  predicate FirstToMake(ps: seq<Position>, i: int, commits: bool) {
    0 <= i < |ps| && Makes(ps[i].command, commits) && forall j :: 0 <= j < i ==> !Makes(ps[j].command, commits)
  }

  ghost predicate EarlierIs(p: Publish, kind: Kind, before: seq<Position>) {
    var commits := kind.GitPush? || kind.Release?;
    && (p.changedBefore.Some? <==> exists i :: 0 <= i < |before| && Makes(before[i].command, commits))
    && (p.changedBefore.Some? ==>
          exists i :: FirstToMake(before, i, commits) && p.changedBefore == Some(before[i].command.change.value.command))
    && (p.fromWorkingTree <==>
          && kind.GitPush? && (exists i :: 0 <= i < |before| && Makes(before[i].command, true))
          && forall i :: 0 <= i < |before| && Makes(before[i].command, true) ==> before[i].command.change.value.command == "git commit")
  }

  lemma ReportsOnFields(p: Publish, kind: Kind, before: seq<Position>)
    requires Reports(p, kind, before)
    ensures EarlierIs(p, kind, before)
  {
    forall i | 0 <= i < |before|
      ensures ChangesCommits(before[i].command) <==> Makes(before[i].command, true)
      ensures ChangesFiles(before[i].command) <==> Makes(before[i].command, false)
    {
    }
    hide Makes, ChangesCommits, ChangesFiles;
    if kind.GitPush? || kind.Release? {
      if p.changedBefore.Some? {
        var i :| FirstCommits(before, i) && p.changedBefore == Some(before[i].command.change.value.command);
        assert FirstToMake(before, i, true);
      }
    } else if p.changedBefore.Some? {
      var i :| FirstFiles(before, i) && p.changedBefore == Some(before[i].command.change.value.command);
      assert FirstToMake(before, i, false);
    }
  }

  /**
   The same report names the first command before it, at any depth, that changed what it reads: commits for a push or a
   release, files for any other; and says a push's commits are the working tree's exactly when every command before it that
   made commits is a git commit.
   */
  lemma EarlierChangesReported(ps: seq<Position>, k: nat, start: string, toolEnv: seq<string>, resolve: Resolve)
    requires k < |ps| && Steady(ps, 0) && ps[k].command.sets.None? && !ps[k].command.isCd && ps[k].command.publish.Some?
    ensures var found := WalkAll(ps, Start(start, toolEnv), resolve).found;
            PublishesBefore(ps, k) < |found| && EarlierIs(found[PublishesBefore(ps, k)], ps[k].command.publish.value.kind, ps[..k])
  {
    hide Reports, EarlierIs, WalkAll, Before;
    FoundCounts(ps, k, start, toolEnv, resolve);
    EarlierChangesAreExact(ps, k, start, toolEnv, resolve);
    ReportsOnFields(WalkAll(ps, Start(start, toolEnv), resolve).found[PublishesBefore(ps, k)],
                    ps[k].command.publish.value.kind, ps[..k]);
  }
}
