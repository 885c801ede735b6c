/**
 The two walks over an extracted update: the one that copies its files over the install and
 the one that lists what the copy will overwrite.
 */
module OtaTree {

  /** A path below the install or extract root, one name a component. */
  type Rel = seq<string>

  datatype Node = File(text: string) | Dir(children: seq<Child>) | Link

  datatype Child = Child(name: string, node: Node)

  datatype Write = Write(path: Rel, text: string)

  /** Dependency trees and links are never copied, nor the user's workspace at the top. */
  predicate Skipped(c: Child, top: bool) {
    c.name == "node_modules" || c.node.Link? || (top && c.name == "workspace")
  }

  /** copyDirectory, as the list of files it writes in order. */
  function Writes(children: seq<Child>, prefix: Rel, top: bool): seq<Write>
    decreases children
  {
    if children == [] then []
    else
      var c := children[0];
      (if Skipped(c, top) then []
       else match c.node
         case File(text) => [Write(prefix + [c.name], text)]
         case Dir(inner) => Writes(inner, prefix + [c.name], false)
         case Link => [])
      + Writes(children[1..], prefix, top)
  }

  /** updatePaths: here the top is wherever the relative path is still empty. */
  function Paths(children: seq<Child>, prefix: Rel): seq<Rel>
    decreases children
  {
    if children == [] then []
    else
      var c := children[0];
      (if Skipped(c, prefix == []) then []
       else match c.node
         case File(_) => [prefix + [c.name]]
         case Dir(inner) => Paths(inner, prefix + [c.name])
         case Link => [])
      + Paths(children[1..], prefix)
  }

  function Targets(ws: seq<Write>): (r: seq<Rel>)
    ensures |r| == |ws| && forall i :: 0 <= i < |ws| ==> r[i] == ws[i].path
  {
    seq(|ws|, i requires 0 <= i < |ws| => ws[i].path)
  }

  /** For every source tree the backup list is exactly what the copy writes, in the same order. */
  lemma {:induction false} ListedIsWritten(children: seq<Child>, prefix: Rel)
    ensures Paths(children, prefix) == Targets(Writes(children, prefix, prefix == []))
    decreases children
  {
    if children != [] {
      var c := children[0];
      ListedIsWritten(children[1..], prefix);
      if !Skipped(c, prefix == []) && c.node.Dir? {
        ListedIsWritten(c.node.children, prefix + [c.name]);
      }
    }
  }

  predicate UnderPrefix(path: Rel, prefix: Rel) { |path| > |prefix| && path[..|prefix|] == prefix }

  lemma {:induction false} WritesStayBelow(children: seq<Child>, prefix: Rel, top: bool)
    ensures forall w :: w in Writes(children, prefix, top) ==> UnderPrefix(w.path, prefix)
    decreases children
  {
    if children != [] {
      var c := children[0];
      WritesStayBelow(children[1..], prefix, top);
      if c.node.Dir? {
        WritesStayBelow(c.node.children, prefix + [c.name], false);
        forall w | w in Writes(c.node.children, prefix + [c.name], false) ensures UnderPrefix(w.path, prefix) {
          assert w.path[..|prefix|] == w.path[..|prefix| + 1][..|prefix|];
        }
      }
    }
  }

  /** The user's workspace and every dependency tree are never written, at any depth. */
  lemma {:induction false} NeverWritten(children: seq<Child>, prefix: Rel, top: bool)
    requires "node_modules" !in prefix
    ensures forall w :: w in Writes(children, prefix, top) ==> "node_modules" !in w.path
    ensures top ==> forall w :: w in Writes(children, prefix, top) ==> |w.path| > |prefix| && w.path[|prefix|] != "workspace"
    decreases children
  {
    if children != [] {
      var c := children[0];
      NeverWritten(children[1..], prefix, top);
      if !Skipped(c, top) && c.node.Dir? {
        NeverWritten(c.node.children, prefix + [c.name], false);
        WritesStayBelow(c.node.children, prefix + [c.name], false);
        forall w | w in Writes(c.node.children, prefix + [c.name], false) ensures |w.path| > |prefix| && w.path[|prefix|] == c.name {
          assert w.path[..|prefix| + 1][|prefix|] == c.name;
        }
      }
    }
  }

  /** The file map after some writes, the last write to a path winning. */
  function Apply(files: map<Rel, string>, ws: seq<Write>): map<Rel, string> {
    if ws == [] then files else Apply(files, ws[..|ws| - 1])[ws[|ws| - 1].path := ws[|ws| - 1].text]
  }

  lemma {:induction false} ApplyAppend(files: map<Rel, string>, a: seq<Write>, b: seq<Write>)
    ensures Apply(files, a + b) == Apply(Apply(files, a), b)
    decreases |b|
  {
    if b == [] {
      assert a + b == a;
    } else {
      assert (a + b)[..|a + b| - 1] == a + b[..|b| - 1];
      ApplyAppend(files, a, b[..|b| - 1]);
    }
  }

  // ---- what is written, from the tree alone ----

  /** Following the path from here leads through directories to a file with this text. */
  ghost predicate Reaches(children: seq<Child>, path: Rel, text: string)
    decreases |path|
  {
    path != [] && exists c :: c in children && Leads(c, path, text)
  }

  ghost predicate Leads(c: Child, path: Rel, text: string)
    requires path != []
    decreases |path|, 0
  {
    && c.name == path[0]
    && if |path| == 1 then c.node == File(text) else c.node.Dir? && Reaches(c.node.children, path[1..], text)
  }

  /** The update holds this file and means it for the install: no dependency tree is on the way, and it is not the workspace's. */
  ghost predicate Updates(children: seq<Child>, path: Rel, text: string) {
    Reaches(children, path, text) && "node_modules" !in path && path[0] != "workspace"
  }

  ghost predicate Allowed(path: Rel, top: bool) {
    path != [] && "node_modules" !in path && (top ==> path[0] != "workspace")
  }

  lemma AllowedRest(path: Rel, top: bool)
    requires |path| > 1
    ensures Allowed(path, top) <==> path[0] != "node_modules" && (top ==> path[0] != "workspace") && Allowed(path[1..], false)
  {
    assert path == [path[0]] + path[1..];
  }

  /** What one child adds to the list. */
  function ChildAdds(c: Child, prefix: Rel, top: bool): seq<Write>
    decreases c
  {
    if Skipped(c, top) then []
    else match c.node
      case File(text) => [Write(prefix + [c.name], text)]
      case Dir(inner) => Writes(inner, prefix + [c.name], false)
      case Link => []
  }

  lemma SamePath(prefix: Rel, a: Rel, b: Rel)
    ensures prefix + a == prefix + b <==> a == b
  {
    assert (prefix + a)[|prefix|..] == a && (prefix + b)[|prefix|..] == b;
  }

  lemma {:induction false} ChildWritesReached(c: Child, prefix: Rel, top: bool, path: Rel, text: string)
    requires path != []
    ensures Write(prefix + path, text) in ChildAdds(c, prefix, top) <==> Leads(c, path, text) && Allowed(path, top)
    decreases c
  {
    match c.node
    case File(t) =>
      SamePath(prefix, path, [c.name]);
      if |path| == 1 { assert path == [path[0]]; }
    case Dir(inner) =>
      hide Reaches;
      if !Skipped(c, top) {
        DirWritesReached(c, prefix, top, path, text);
      }
      if |path| > 1 { AllowedRest(path, top); }
    case Link =>
  }

  lemma {:induction false} DirWritesReached(c: Child, prefix: Rel, top: bool, path: Rel, text: string)
    requires path != [] && c.node.Dir? && !Skipped(c, top)
    ensures Write(prefix + path, text) in Writes(c.node.children, prefix + [c.name], false)
            <==> Leads(c, path, text) && Allowed(path, top)
    decreases c, 0
  {
    var below := prefix + [c.name];
    WritesStayBelow(c.node.children, below, false);
    if |path| > 1 && path[0] == c.name {
      assert prefix + path == below + path[1..];
      WrittenIsReached(c.node.children, below, false, path[1..], text);
      AllowedRest(path, top);
    } else {
      assert (prefix + path)[..|below|][|prefix|] == path[0] && below[|prefix|] == c.name;
    }
  }

  /** A path is written, with that text, exactly when following it reaches a file with that text and nothing forbids it. */
  lemma {:induction false} WrittenIsReached(children: seq<Child>, prefix: Rel, top: bool, path: Rel, text: string)
    requires path != []
    ensures Write(prefix + path, text) in Writes(children, prefix, top) <==> Reaches(children, path, text) && Allowed(path, top)
    decreases children
  {
    hide Allowed, Leads;
    if children != [] {
      var c, rest := children[0], children[1..];
      ChildWritesReached(c, prefix, top, path, text);
      WrittenIsReached(rest, prefix, top, path, text);
      assert children == [c] + rest;
      assert Writes(children, prefix, top) == ChildAdds(c, prefix, top) + Writes(rest, prefix, top);
    }
  }

  /** An update's copy writes exactly the files it means for the install. */
  lemma CopyWritesTheUpdate(children: seq<Child>, path: Rel, text: string)
    ensures Write(path, text) in Writes(children, [], true) <==> Updates(children, path, text)
  {
    WritesStayBelow(children, [], true);
    if path != [] {
      assert [] + path == path;
      WrittenIsReached(children, [], true, path, text);
    }
  }

  /** The install holds every file of the update that is meant for it, and every other path is as it was. */
  ghost predicate Updated(children: seq<Child>, was: map<Rel, string>, now: map<Rel, string>) {
    forall path :: if exists text :: Updates(children, path, text)
                   then path in now && Updates(children, path, now[path])
                   else (path in now <==> path in was) && (path in now ==> now[path] == was[path])
  }

  lemma {:induction false} ApplyWrites(files: map<Rel, string>, ws: seq<Write>, path: Rel)
    ensures var now := Apply(files, ws);
            if exists text :: Write(path, text) in ws then path in now && Write(path, now[path]) in ws
            else (path in now <==> path in files) && (path in now ==> now[path] == files[path])
    decreases |ws|
  {
    if ws != [] {
      var front, last := ws[..|ws| - 1], ws[|ws| - 1];
      ApplyWrites(files, front, path);
      assert ws == front + [last];
      assert last == Write(last.path, last.text);
    }
  }

  lemma CopyUpdates(children: seq<Child>, files: map<Rel, string>)
    ensures Updated(children, files, Apply(files, Writes(children, [], true)))
  {
    hide Updates, Apply, Writes;
    var ws := Writes(children, [], true);
    var now := Apply(files, ws);
    forall path
      ensures if exists text :: Updates(children, path, text)
              then path in now && Updates(children, path, now[path])
              else (path in now <==> path in files) && (path in now ==> now[path] == files[path])
    {
      ApplyWrites(files, ws, path);
      forall text ensures Write(path, text) in ws <==> Updates(children, path, text) { CopyWritesTheUpdate(children, path, text); }
    }
  }

  /** The backup list names exactly the paths of those files. */
  lemma ListedIsUpdated(children: seq<Child>, path: Rel)
    ensures path in Paths(children, []) <==> exists text :: Updates(children, path, text)
  {
    hide Updates, Paths, Writes;
    var ws := Writes(children, [], true);
    ListedIsWritten(children, []);
    if path in Targets(ws) {
      var i :| 0 <= i < |ws| && Targets(ws)[i] == path;
      assert ws[i] in ws && ws[i] == Write(path, ws[i].text);
      CopyWritesTheUpdate(children, path, ws[i].text);
    }
    if text :| Updates(children, path, text) {
      CopyWritesTheUpdate(children, path, text);
      var i :| 0 <= i < |ws| && ws[i] == Write(path, text);
      assert Targets(ws)[i] == path;
    }
  }

  method UpdatePaths(children: seq<Child>, rel: Rel) returns (paths: seq<Rel>)
    ensures paths == Paths(children, rel)
    decreases children
  {
    paths := [];
    for i := 0 to |children|
      invariant paths + Paths(children[i..], rel) == Paths(children, rel)
    {
      var c := children[i];
      assert children[i..][0] == c && children[i..][1..] == children[i + 1..];
      if Skipped(c, rel == []) {
        continue;
      }
      var childRel := rel + [c.name];
      if c.node.Dir? {
        var inner := UpdatePaths(c.node.children, childRel);
        paths := paths + inner;
        continue;
      }
      paths := paths + [childRel];
    }
  }
}
