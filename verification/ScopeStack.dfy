/**
 The walk over a shell command's positions that works out, for each publish in it, the
 directory it runs in, the variables set for it, and what an earlier command changed under it.
 */
module ScopeStack {
  import opened Wrappers

  // ---- what the argv matchers say of one command ----

  datatype Kind = GitPush | Release | Deploy | PackagePublish

  datatype Match = Match(kind: Kind, dirArg: Option<string>, gitEnv: seq<string>)

  /** What a git command changes for a later publish. */
  datatype Change = Change(command: string, commits: bool, files: bool)

  /** One command: the names an environment statement sets, the target of a `cd`, the publish it matches, the change it makes. */
  datatype Command = Command(sets: Option<seq<string>>, isCd: bool, target: Option<string>, publish: Option<Match>, change: Option<Change>)

  datatype Position = Position(depth: nat, command: Command)

  /** Resolving a directory word against another is a parameter; it fails on words that depend on expansion. */
  type Resolve = (string, string) -> Option<string>

  // ---- effects of one command ----

  datatype Scope = Scope(dir: string, uncertain: bool, env: seq<string>)

  datatype Earlier = Earlier(commits: Option<string>, files: Option<string>, onlyCommit: Option<bool>)

  const NOTHING_EARLIER := Earlier(None, None, None)

  datatype Publish = Publish(kind: Kind, cwd: string, uncertain: bool, changedBefore: Option<string>, fromWorkingTree: bool, gitEnv: seq<string>)

  predicate IsEnv(c: Command) { c.sets.Some? }

  predicate IsCd(c: Command) { c.sets.None? && c.isCd }

  predicate Publishes(c: Command) { c.sets.None? && !c.isCd && c.publish.Some? }

  /** A command that is none of these, and what it changes. */
  predicate Changes(c: Command) { c.sets.None? && !c.isCd && c.publish.None? && c.change.Some? }

  function ScopeAfter(c: Command, here: Scope, resolve: Resolve): Scope {
    if IsEnv(c) then here.(env := here.env + c.sets.value)
    else if IsCd(c) then
      var next := if c.target.Some? then resolve(here.dir, c.target.value) else None;
      if next.Some? then here.(dir := next.value) else here.(uncertain := true)
    else here
  }

  function EarlierAfter(c: Command, e: Earlier): Earlier {
    if !Changes(c) then e
    else
      var ch := c.change.value;
      Earlier(if ch.commits then e.commits.OrElse(Some(ch.command)) else e.commits,
              if ch.files then e.files.OrElse(Some(ch.command)) else e.files,
              if ch.commits then Some(e.onlyCommit.GetOr(true) && ch.command == "git commit") else e.onlyCommit)
  }

  function Dedup(names: seq<string>): seq<string> {
    if names == [] then []
    else
      var before := Dedup(names[..|names| - 1]);
      if names[|names| - 1] in before then before else before + [names[|names| - 1]]
  }

  function ChangedBefore(kind: Kind, e: Earlier): Option<string> {
    if kind.GitPush? || kind.Release? then e.commits else e.files
  }

  function Found(c: Command, here: Scope, e: Earlier, resolve: Resolve): seq<Publish> {
    if !Publishes(c) then []
    else
      var m := c.publish.value;
      var dir := if m.dirArg.None? then Some(here.dir) else resolve(here.dir, m.dirArg.value);
      var changed := ChangedBefore(m.kind, e);
      [Publish(m.kind, dir.GetOr(here.dir), here.uncertain || dir.None?, changed,
               changed.Some? && m.kind.GitPush? && e.onlyCommit == Some(true),
               if m.kind.GitPush? then Dedup(here.env + m.gitEnv) else [])]
  }

  // ---- the linear walk ----

  datatype Walk = Walk(bodyAt: seq<Scope>, lastDepth: nat, earlier: Earlier, found: seq<Publish>)

  /** One scope a depth, down to the last one seen. */
  predicate WellFormed(w: Walk) { |w.bodyAt| == w.lastDepth + 1 }

  predicate CanStep(w: Walk, depth: nat) { depth <= w.lastDepth + 1 }

  /** The scope a command at this depth starts from: its own, or its parent's when its body begins. */
  function Here(w: Walk, depth: nat): Scope
    requires WellFormed(w) && CanStep(w, depth)
  {
    w.bodyAt[if depth > w.lastDepth then depth - 1 else depth]
  }

  function Step(w: Walk, p: Position, resolve: Resolve): (w': Walk)
    requires WellFormed(w) && CanStep(w, p.depth)
    ensures WellFormed(w')
  {
    var here := Here(w, p.depth);
    Walk(w.bodyAt[..p.depth] + [ScopeAfter(p.command, here, resolve)], p.depth,
         EarlierAfter(p.command, w.earlier), w.found + Found(p.command, here, w.earlier, resolve))
  }

  /** A body is entered one level at a time. */
  predicate Steady(positions: seq<Position>, last: nat) {
    positions == [] || (positions[0].depth <= last + 1 && Steady(positions[1..], positions[0].depth))
  }

  /** The depth after some positions. */
  function LastDepth(positions: seq<Position>, last: nat): nat {
    if positions == [] then last else positions[|positions| - 1].depth
  }

  function WalkAll(positions: seq<Position>, w: Walk, resolve: Resolve): (w': Walk)
    requires WellFormed(w) && Steady(positions, w.lastDepth)
    ensures WellFormed(w') && w'.lastDepth == LastDepth(positions, w.lastDepth)
  {
    if positions == [] then w else WalkAll(positions[1..], Step(w, positions[0], resolve), resolve)
  }

  function Start(dir: string, toolEnv: seq<string>): Walk {
    Walk([Scope(dir, false, toolEnv)], 0, NOTHING_EARLIER, [])
  }

  /** shellPublishes. */
  method ShellPublishes(positions: seq<Position>, start: string, toolEnv: seq<string>, resolve: Resolve) returns (found: seq<Publish>)
    requires Steady(positions, 0)
    ensures found == WalkAll(positions, Start(start, toolEnv), resolve).found
  {
    hide EarlierAfter, Found, ScopeAfter;
    found := [];
    var bodyAt := [Scope(start, false, toolEnv)];
    var earlier, lastDepth := NOTHING_EARLIER, 0;
    for i := 0 to |positions|
      invariant |bodyAt| == lastDepth + 1 && Steady(positions[i..], lastDepth)
      invariant WalkAll(positions[i..], Walk(bodyAt, lastDepth, earlier, found), resolve)
                == WalkAll(positions, Start(start, toolEnv), resolve)
    {
      var pos := positions[i];
      ghost var w := Walk(bodyAt, lastDepth, earlier, found);
      assert positions[i..][0] == pos && positions[i..][1..] == positions[i + 1..];
      if pos.depth > lastDepth {
        bodyAt := bodyAt + [bodyAt[pos.depth - 1]];
      }
      bodyAt := bodyAt[..pos.depth + 1];
      lastDepth := pos.depth;
      var here := bodyAt[pos.depth];
      assert here == Here(w, pos.depth) && bodyAt[..pos.depth] == w.bodyAt[..pos.depth];
      var changed, seen, ships := Visit(pos.command, here, earlier, resolve);
      bodyAt := bodyAt[pos.depth := changed];
      assert bodyAt == w.bodyAt[..pos.depth] + [changed];
      earlier := seen;
      found := found + ships;
    }
    assert positions[|positions|..] == [];
  }

  /** One position, in the order the walk tries things: an environment statement, a `cd`, a publish, a change. */
  method Visit(c: Command, here: Scope, before: Earlier, resolve: Resolve) returns (scope: Scope, earlier: Earlier, found: seq<Publish>)
    ensures scope == ScopeAfter(c, here, resolve) && earlier == EarlierAfter(c, before) && found == Found(c, here, before, resolve)
  {
    hide Dedup;
    scope, earlier, found := here, before, [];
    if c.sets.Some? {
      scope := here.(env := here.env + c.sets.value);
      return;
    }
    if c.isCd {
      var next := if c.target.None? then None else resolve(here.dir, c.target.value);
      scope := if next.Some? then here.(dir := next.value) else here.(uncertain := true);
      return;
    }
    if c.publish.None? {
      if c.change.Some? && c.change.value.commits {
        earlier := earlier.(commits := earlier.commits.OrElse(Some(c.change.value.command)),
                            onlyCommit := Some(earlier.onlyCommit.GetOr(true) && c.change.value.command == "git commit"));
      }
      if c.change.Some? && c.change.value.files {
        earlier := earlier.(files := earlier.files.OrElse(Some(c.change.value.command)));
      }
      return;
    }
    var m := c.publish.value;
    var changedBefore := if m.kind.GitPush? || m.kind.Release? then before.commits else before.files;
    var dir := if m.dirArg.None? then Some(here.dir) else resolve(here.dir, m.dirArg.value);
    var gitEnv := if m.kind.GitPush? then Dedup(here.env + m.gitEnv) else [];
    found := [Publish(m.kind, dir.GetOr(here.dir), here.uncertain || dir.None?, changedBefore,
                      changedBefore.Some? && m.kind.GitPush? && before.onlyCommit == Some(true), gitEnv)];
  }

  // ---- the shell as a tree ----

  /** A body is commands in order; a command may own a nested body (`bash -c "…"`, `( … )`). */
  datatype Node = Node(command: Command, nested: seq<Node>)

  /** The positions of a body: each command directly followed by the body it owns, one deeper. */
  function Flatten(body: seq<Node>, depth: nat): seq<Position>
    decreases body
  {
    if body == [] then []
    else [Position(depth, body[0].command)] + Flatten(body[0].nested, depth + 1) + Flatten(body[1..], depth)
  }

  datatype Ran = Ran(scope: Scope, earlier: Earlier, found: seq<Publish>)

  /** A body run as a shell runs it: a nested body starts from a copy of the scope and its own is thrown away. */
  function Interpret(body: seq<Node>, scope: Scope, earlier: Earlier, resolve: Resolve): Ran
    decreases body
  {
    if body == [] then Ran(scope, earlier, [])
    else
      var c := body[0].command;
      var after := ScopeAfter(c, scope, resolve);
      var inner := Interpret(body[0].nested, after, EarlierAfter(c, earlier), resolve);
      var rest := Interpret(body[1..], after, inner.earlier, resolve);
      Ran(rest.scope, rest.earlier, Found(c, scope, earlier, resolve) + inner.found + rest.found)
  }

  // ---- the walk is the interpreter ----

  lemma {:induction false} SteadyAppend(a: seq<Position>, b: seq<Position>, last: nat)
    requires Steady(a, last) && Steady(b, LastDepth(a, last))
    ensures Steady(a + b, last)
  {
    if a == [] {
      assert a + b == b;
    } else {
      assert (a + b)[1..] == a[1..] + b;
      SteadyAppend(a[1..], b, a[0].depth);
    }
  }

  lemma {:induction false} WalkAppend(a: seq<Position>, b: seq<Position>, w: Walk, resolve: Resolve)
    requires WellFormed(w) && Steady(a, w.lastDepth) && Steady(b, LastDepth(a, w.lastDepth))
    ensures Steady(a + b, w.lastDepth) && WalkAll(a, w, resolve).lastDepth == LastDepth(a, w.lastDepth)
    ensures WalkAll(a + b, w, resolve) == WalkAll(b, WalkAll(a, w, resolve), resolve)
  {
    SteadyAppend(a, b, w.lastDepth);
    if a == [] {
      assert a + b == b;
    } else {
      assert (a + b)[1..] == a[1..] + b;
      WalkAppend(a[1..], b, Step(w, a[0], resolve), resolve);
    }
  }

  lemma {:induction false} FlattenIsSteady(body: seq<Node>, depth: nat, last: nat)
    requires depth <= last + 1
    ensures Steady(Flatten(body, depth), last)
    ensures LastDepth(Flatten(body, depth), last) >= if body == [] then last else depth
    decreases body
  {
    if body != [] {
      var head, inner, rest := [Position(depth, body[0].command)], Flatten(body[0].nested, depth + 1), Flatten(body[1..], depth);
      FlattenIsSteady(body[0].nested, depth + 1, depth);
      SteadyAppend(head, inner, last);
      assert LastDepth(head + inner, last) == LastDepth(inner, depth);
      FlattenIsSteady(body[1..], depth, LastDepth(head + inner, last));
      SteadyAppend(head + inner, rest, last);
    }
  }

  /** After a body: its scope stands at its depth, the enclosing ones as they were, and the finds are the interpreter's. */
  ghost predicate RanAs(w: Walk, w': Walk, depth: nat, body: seq<Node>, scope: Scope, resolve: Resolve)
    requires WellFormed(w) && WellFormed(w') && CanStep(w, depth)
  {
    var ran := Interpret(body, scope, w.earlier, resolve);
    && w'.found == w.found + ran.found && w'.earlier == ran.earlier
    && (if body == [] then w' == w
        else w'.lastDepth >= depth && w'.bodyAt[..depth] == w.bodyAt[..depth] && w'.bodyAt[depth] == ran.scope)
  }

  lemma {:induction false} BodyWalk(body: seq<Node>, depth: nat, w: Walk, scope: Scope, resolve: Resolve)
    requires WellFormed(w) && CanStep(w, depth) && Here(w, depth) == scope
    ensures Steady(Flatten(body, depth), w.lastDepth)
    ensures RanAs(w, WalkAll(Flatten(body, depth), w, resolve), depth, body, scope, resolve)
    decreases body
  {
    hide ScopeAfter, EarlierAfter, Found, RanAs;
    FlattenIsSteady(body, depth, w.lastDepth);
    if body == [] {
      NothingRan(w, depth, scope, resolve);
    } else {
      var p := Position(depth, body[0].command);
      var inner, rest := Flatten(body[0].nested, depth + 1), Flatten(body[1..], depth);
      var w1 := Step(w, p, resolve);
      var after := ScopeAfter(p.command, scope, resolve);
      BodyWalk(body[0].nested, depth + 1, w1, after, resolve);
      var w2 := WalkAll(inner, w1, resolve);
      NestedLeaves(w1, w2, depth, body[0].nested, after, resolve);
      BodyWalk(body[1..], depth, w2, after, resolve);
      HeadWalk(p, inner, rest, w, resolve);
      RanTogether(body, depth, w, w1, w2, WalkAll(rest, w2, resolve), scope, resolve);
    }
  }

  lemma NothingRan(w: Walk, depth: nat, scope: Scope, resolve: Resolve)
    requires WellFormed(w) && CanStep(w, depth)
    ensures RanAs(w, w, depth, [], scope, resolve)
  {
  }

  /** A command, the body it owns and the rest of its body make up the whole body. */
  lemma RanTogether(body: seq<Node>, depth: nat, w: Walk, w1: Walk, w2: Walk, w3: Walk, scope: Scope, resolve: Resolve)
    requires body != [] && WellFormed(w) && CanStep(w, depth) && Here(w, depth) == scope
    requires w1 == Step(w, Position(depth, body[0].command), resolve) && WellFormed(w2) && WellFormed(w3)
    requires var after := ScopeAfter(body[0].command, scope, resolve);
             && RanAs(w1, w2, depth + 1, body[0].nested, after, resolve)
             && w2.lastDepth >= depth && w2.bodyAt[..depth] == w1.bodyAt[..depth] && w2.bodyAt[depth] == after
             && RanAs(w2, w3, depth, body[1..], after, resolve)
    ensures RanAs(w, w3, depth, body, scope, resolve)
  {
    hide ScopeAfter, EarlierAfter, Found;
    assert w1.bodyAt[..depth] == w.bodyAt[..depth];
  }

  /** After a nested body the owner's scope is untouched: nothing set inside leaks out. */
  lemma NestedLeaves(w1: Walk, w2: Walk, depth: nat, nested: seq<Node>, after: Scope, resolve: Resolve)
    requires WellFormed(w1) && WellFormed(w2) && w1.lastDepth == depth && w1.bodyAt[depth] == after
    requires RanAs(w1, w2, depth + 1, nested, after, resolve)
    ensures w2.lastDepth >= depth && w2.bodyAt[..depth] == w1.bodyAt[..depth] && w2.bodyAt[depth] == after
  {
    hide Interpret;
    if nested != [] {
      assert w2.bodyAt[..depth + 1][..depth] == w2.bodyAt[..depth] && w1.bodyAt[..depth + 1][..depth] == w1.bodyAt[..depth];
      assert w2.bodyAt[..depth + 1][depth] == w1.bodyAt[..depth + 1][depth];
    }
  }

  lemma HeadWalk(p: Position, inner: seq<Position>, rest: seq<Position>, w: Walk, resolve: Resolve)
    requires WellFormed(w) && CanStep(w, p.depth) && Steady(inner, p.depth) && Steady(rest, LastDepth(inner, p.depth))
    ensures Steady([p] + inner + rest, w.lastDepth)
    ensures WalkAll([p] + inner + rest, w, resolve) == WalkAll(rest, WalkAll(inner, Step(w, p, resolve), resolve), resolve)
  {
    hide ScopeAfter, EarlierAfter, Found;
    SteadyAppend(inner, rest, p.depth);
    WalkAppend(inner, rest, Step(w, p, resolve), resolve);
    var all := [p] + inner + rest;
    assert all[0] == p && all[1..] == inner + rest;
  }

  /** The linear walk over a shell tree's positions finds what the recursive interpreter of the tree finds. */
  lemma WalkIsLexicalScoping(body: seq<Node>, start: string, toolEnv: seq<string>, resolve: Resolve)
    ensures Steady(Flatten(body, 0), 0)
    ensures WalkAll(Flatten(body, 0), Start(start, toolEnv), resolve).found
            == Interpret(body, Scope(start, false, toolEnv), NOTHING_EARLIER, resolve).found
  {
    hide Flatten, Interpret, WalkAll, Steady;
    BodyWalk(body, 0, Start(start, toolEnv), Scope(start, false, toolEnv), resolve);
  }

  // ---- what a scope depends on ----

  function RunScope(commands: seq<Command>, scope: Scope, resolve: Resolve): Scope {
    if commands == [] then scope else RunScope(commands[1..], ScopeAfter(commands[0], scope, resolve), resolve)
  }

  function CommandsOf(body: seq<Node>): seq<Command> {
    if body == [] then [] else [body[0].command] + CommandsOf(body[1..])
  }

  /** A body's own scope depends on its own commands alone, whatever bodies they own. */
  lemma {:induction false} ScopeIgnoresNested(body: seq<Node>, scope: Scope, earlier: Earlier, resolve: Resolve)
    ensures Interpret(body, scope, earlier, resolve).scope == RunScope(CommandsOf(body), scope, resolve)
    decreases |body|
  {
    hide ScopeAfter, EarlierAfter, Found;
    if body != [] {
      var after := ScopeAfter(body[0].command, scope, resolve);
      var inner := Interpret(body[0].nested, after, EarlierAfter(body[0].command, earlier), resolve);
      ScopeIgnoresNested(body[1..], after, inner.earlier, resolve);
    }
  }

  // ---- what an earlier command changed ----

  predicate ChangesCommits(c: Command) { Changes(c) && c.change.value.commits }

  predicate ChangesFiles(c: Command) { Changes(c) && c.change.value.files }

  /** e records exactly what the commands changed: the first to do so, and whether all that changed commits are `git commit`. */
  ghost predicate Records(e: Earlier, ps: seq<Position>) {
    && (e.commits.Some? <==> exists i :: 0 <= i < |ps| && ChangesCommits(ps[i].command))
    && (e.files.Some? <==> exists i :: 0 <= i < |ps| && ChangesFiles(ps[i].command))
    && (e.commits.Some? ==> exists i :: FirstCommits(ps, i) && e.commits == Some(ps[i].command.change.value.command))
    && (e.files.Some? ==> exists i :: FirstFiles(ps, i) && e.files == Some(ps[i].command.change.value.command))
    && (e.onlyCommit.Some? <==> e.commits.Some?)
    && (e.onlyCommit.Some? ==> (e.onlyCommit.value <==>
          forall i :: 0 <= i < |ps| && ChangesCommits(ps[i].command) ==> ps[i].command.change.value.command == "git commit"))
  }

  predicate FirstCommits(ps: seq<Position>, i: int) {
    0 <= i < |ps| && ChangesCommits(ps[i].command) && forall j :: 0 <= j < i ==> !ChangesCommits(ps[j].command)
  }

  predicate FirstFiles(ps: seq<Position>, i: int) {
    0 <= i < |ps| && ChangesFiles(ps[i].command) && forall j :: 0 <= j < i ==> !ChangesFiles(ps[j].command)
  }

  lemma RecordsOneMore(e: Earlier, ps: seq<Position>, p: Position)
    requires Records(e, ps)
    ensures Records(EarlierAfter(p.command, e), ps + [p])
  {
    var e', all := EarlierAfter(p.command, e), ps + [p];
    assert all[|ps|] == p && forall i :: 0 <= i < |ps| ==> all[i] == ps[i];
    CommitsOneMore(e, ps, p);
    FilesOneMore(e, ps, p);
  }

  lemma CommitsOneMore(e: Earlier, ps: seq<Position>, p: Position)
    requires Records(e, ps)
    ensures var e', all := EarlierAfter(p.command, e), ps + [p];
            && (e'.commits.Some? <==> exists i :: 0 <= i < |all| && ChangesCommits(all[i].command))
            && (e'.commits.Some? ==> exists i :: FirstCommits(all, i) && e'.commits == Some(all[i].command.change.value.command))
            && (e'.onlyCommit.Some? <==> e'.commits.Some?)
            && (e'.onlyCommit.Some? ==> (e'.onlyCommit.value <==>
                  forall i :: 0 <= i < |all| && ChangesCommits(all[i].command) ==> all[i].command.change.value.command == "git commit"))
  {
    var all := ps + [p];
    assert all[|ps|] == p && forall i :: 0 <= i < |ps| ==> all[i] == ps[i];
    if e.commits.Some? {
      var i :| FirstCommits(ps, i) && e.commits == Some(ps[i].command.change.value.command);
      assert FirstCommits(all, i);
    } else if ChangesCommits(p.command) {
      assert FirstCommits(all, |ps|);
    }
  }

  lemma FilesOneMore(e: Earlier, ps: seq<Position>, p: Position)
    requires Records(e, ps)
    ensures var e', all := EarlierAfter(p.command, e), ps + [p];
            && (e'.files.Some? <==> exists i :: 0 <= i < |all| && ChangesFiles(all[i].command))
            && (e'.files.Some? ==> exists i :: FirstFiles(all, i) && e'.files == Some(all[i].command.change.value.command))
  {
    var all := ps + [p];
    assert all[|ps|] == p && forall i :: 0 <= i < |ps| ==> all[i] == ps[i];
    if e.files.Some? {
      var i :| FirstFiles(ps, i) && e.files == Some(ps[i].command.change.value.command);
      assert FirstFiles(all, i);
    } else if ChangesFiles(p.command) {
      assert FirstFiles(all, |ps|);
    }
  }

  /** The walk's state in front of the k-th position. */
  function Before(positions: seq<Position>, k: nat, w: Walk, resolve: Resolve): (w': Walk)
    requires k <= |positions| && WellFormed(w) && Steady(positions, w.lastDepth)
    ensures WellFormed(w') && (k < |positions| ==> CanStep(w', positions[k].depth))
  {
    if k == 0 then w else Before(positions[1..], k - 1, Step(w, positions[0], resolve), resolve)
  }

  lemma {:induction false} BeforeRecords(positions: seq<Position>, k: nat, w: Walk, done: seq<Position>, resolve: Resolve)
    requires k <= |positions| && WellFormed(w) && Steady(positions, w.lastDepth) && Records(w.earlier, done)
    ensures Records(Before(positions, k, w, resolve).earlier, done + positions[..k])
    decreases k
  {
    hide Records;
    if k == 0 {
      assert done + positions[..0] == done;
    } else {
      RecordsOneMore(w.earlier, done, positions[0]);
      BeforeRecords(positions[1..], k - 1, Step(w, positions[0], resolve), done + [positions[0]], resolve);
      assert done + [positions[0]] + positions[1..][..k - 1] == done + positions[..k];
    }
  }

  lemma {:induction false} FoundInOrder(positions: seq<Position>, k: nat, w: Walk, resolve: Resolve)
    requires k < |positions| && WellFormed(w) && Steady(positions, w.lastDepth)
    ensures var b := Before(positions, k, w, resolve);
            b.found + Found(positions[k].command, Here(b, positions[k].depth), b.earlier, resolve)
            <= WalkAll(positions, w, resolve).found
    decreases k
  {
    hide Found, ScopeAfter, EarlierAfter;
    if k > 0 {
      FoundInOrder(positions[1..], k - 1, Step(w, positions[0], resolve), resolve);
    } else {
      FoundGrows(positions[1..], Step(w, positions[0], resolve), resolve);
    }
  }

  lemma {:induction false} FoundGrows(positions: seq<Position>, w: Walk, resolve: Resolve)
    requires WellFormed(w) && Steady(positions, w.lastDepth)
    ensures w.found <= WalkAll(positions, w, resolve).found
  {
    hide Found, ScopeAfter, EarlierAfter;
    if positions != [] { FoundGrows(positions[1..], Step(w, positions[0], resolve), resolve); }
  }

  /**
   The publish at the k-th position reports an earlier change exactly when some command before it, at any depth,
   made one it would read: a push or a release one that changes commits, any other one that changes files; it
   names the first of them, and says the push's commits all come from the working tree exactly when every one
   of them is a `git commit`.
   */
  lemma EarlierChangesAreExact(positions: seq<Position>, k: nat, start: string, toolEnv: seq<string>, resolve: Resolve)
    requires k < |positions| && Steady(positions, 0) && Publishes(positions[k].command)
    ensures var w := Start(start, toolEnv);
            var b := Before(positions, k, w, resolve);
            && |b.found| < |WalkAll(positions, w, resolve).found|
            && var p := WalkAll(positions, w, resolve).found[|b.found|];
               var before := positions[..k];
               && Reports(p, positions[k].command.publish.value.kind, before)
  {
    hide Records, Reports;
    var w := Start(start, toolEnv);
    var b := Before(positions, k, w, resolve);
    NothingRecorded();
    BeforeRecords(positions, k, w, [], resolve);
    assert [] + positions[..k] == positions[..k];
    FoundInOrder(positions, k, w, resolve);
    var all := WalkAll(positions, w, resolve).found;
    var mine := Found(positions[k].command, Here(b, positions[k].depth), b.earlier, resolve);
    assert (b.found + mine)[|b.found|] == mine[0];
    assert all[|b.found|] == mine[0];
    ReportsWhatIsRecorded(b.earlier, mine[0], positions[k].command.publish.value.kind, positions[..k]);
  }

  lemma NothingRecorded()
    ensures Records(NOTHING_EARLIER, [])
  {
  }

  ghost predicate Reports(p: Publish, kind: Kind, before: seq<Position>) {
    if kind.GitPush? || kind.Release? then
      && (p.changedBefore.Some? <==> exists i :: 0 <= i < |before| && ChangesCommits(before[i].command))
      && (p.changedBefore.Some? ==>
            exists i :: FirstCommits(before, i) && p.changedBefore == Some(before[i].command.change.value.command))
      && (p.fromWorkingTree <==>
            && kind.GitPush? && (exists i :: 0 <= i < |before| && ChangesCommits(before[i].command))
            && forall i :: 0 <= i < |before| && ChangesCommits(before[i].command) ==> before[i].command.change.value.command == "git commit")
    else
      && (p.changedBefore.Some? <==> exists i :: 0 <= i < |before| && ChangesFiles(before[i].command))
      && (p.changedBefore.Some? ==>
            exists i :: FirstFiles(before, i) && p.changedBefore == Some(before[i].command.change.value.command))
      && !p.fromWorkingTree
  }

  lemma ReportsWhatIsRecorded(e: Earlier, p: Publish, kind: Kind, before: seq<Position>)
    requires Records(e, before)
    requires p.changedBefore == ChangedBefore(kind, e)
    requires p.fromWorkingTree == (p.changedBefore.Some? && kind.GitPush? && e.onlyCommit == Some(true))
    ensures Reports(p, kind, before)
  {
  }
}
