/** The inode table of kernel/src/filesystem.cpp with its path cache: after any operation a lookup
    gives what the walk from the root gives. Permission checks are a parameter; data blocks,
    events and statistics are not modelled. */
module FileTree {
  import opened Collections
  import opened Paths

  datatype Inode = Inode(isDirectory: bool, name: string, parent: nat, children: seq<nat>, content: string)

  type Inodes = map<nat, Inode>

  // ---- The walk -----------------------------------------------------------------------------------

  /** The first child with a name. */
  function Child(t: Inodes, ch: seq<nat>, name: string): Option<nat> {
    if ch == [] then None
    else if ch[0] in t && t[ch[0]].name == name then Some(ch[0])
    else Child(t, ch[1..], name)
  }

  /** The lookup without a cache. */
  function Walk(t: Inodes, cur: nat, parts: seq<string>): Option<nat>
    decreases |parts|
  {
    if parts == [] then Some(cur)
    else if cur !in t || !t[cur].isDirectory then None
    else match Child(t, t[cur].children, parts[0])
      case None => None
      case Some(c) => Walk(t, c, parts[1..])
  }

  function Lookup(t: Inodes, root: nat, path: string): Option<nat> { Walk(t, root, Parts(Split(path))) }

  lemma {:induction false} ChildIn(t: Inodes, ch: seq<nat>, name: string)
    ensures var c := Child(t, ch, name); c.Some? ==> c.value in t && c.value in ch && t[c.value].name == name
    decreases |ch|
  {
    if ch != [] { ChildIn(t, ch[1..], name); }
  }

  lemma {:induction false} WalkIn(t: Inodes, cur: nat, parts: seq<string>)
    requires cur in t
    ensures Walk(t, cur, parts).Some? ==> Walk(t, cur, parts).value in t
    decreases |parts|
  {
    if parts != [] && t[cur].isDirectory {
      ChildIn(t, t[cur].children, parts[0]);
      var c := Child(t, t[cur].children, parts[0]);
      if c.Some? { WalkIn(t, c.value, parts[1..]); }
    }
  }

  lemma {:induction false} WalkLast(t: Inodes, cur: nat, parts: seq<string>, name: string)
    ensures Walk(t, cur, parts + [name]) ==
            match Walk(t, cur, parts)
            case None => None
            case Some(d) => if d !in t || !t[d].isDirectory then None else Child(t, t[d].children, name)
    decreases |parts|
  {
    if parts == [] {
      assert ([] + [name])[1..] == [];
    } else {
      assert (parts + [name])[1..] == parts[1..] + [name];
      if cur in t && t[cur].isDirectory {
        var c := Child(t, t[cur].children, parts[0]);
        if c.Some? { WalkLast(t, c.value, parts[1..], name); }
      }
    }
  }

  /** A lookup goes component by component: an empty one and "." stay, any other, ".." too, names a
      child. */
  lemma LookupStep(t: Inodes, root: nat, s: string, name: string)
    requires Paths.Lacks(name, SLASH)
    ensures Lookup(t, root, s + "/" + name) ==
            if name == "" || name == "." then Lookup(t, root, s)
            else match Lookup(t, root, s)
                 case None => None
                 case Some(d) => if d !in t || !t[d].isDirectory then None else Child(t, t[d].children, name)
  {
    SplitPiece(s, name);
    PartsLast(Split(s), name);
    assert Parts(Split(s)) + [] == Parts(Split(s));
    WalkLast(t, root, Parts(Split(s)), name);
  }

  // ---- Adding an inode ----------------------------------------------------------------------------

  ghost predicate Bounded(t: Inodes, next: nat) {
    forall i :: i in t ==> i < next && forall c :: c in t[i].children ==> c < next
  }

  function Added(t: Inodes, id: nat, ino: Inode): Inodes
    requires ino.parent in t
  {
    t[id := ino][ino.parent := t[ino.parent].(children := t[ino.parent].children + [id])]
  }

  lemma {:induction false} ChildKept(t: Inodes, id: nat, ino: Inode, ch: seq<nat>, name: string)
    requires ino.parent in t && id !in t && id !in ch && id != ino.parent
    ensures Child(Added(t, id, ino), ch, name) == Child(t, ch, name)
    decreases |ch|
  {
    if ch != [] { ChildKept(t, id, ino, ch[1..], name); }
  }

  lemma {:induction false} ChildAppend(t: Inodes, ch: seq<nat>, id: nat, name: string)
    ensures Child(t, ch + [id], name) ==
            if Child(t, ch, name).Some? then Child(t, ch, name)
            else if id in t && t[id].name == name then Some(id) else None
    decreases |ch|
  {
    if ch == [] {
      assert ([] + [id])[1..] == [];
    } else {
      assert (ch + [id])[1..] == ch[1..] + [id];
      ChildAppend(t, ch[1..], id, name);
    }
  }

  /** A new child with a new name changes no path that resolved. */
  lemma {:induction false} WalkKept(t: Inodes, next: nat, ino: Inode, cur: nat, parts: seq<string>)
    requires Bounded(t, next) && ino.parent in t && cur in t
    requires Walk(t, cur, parts).Some?
    ensures Walk(Added(t, next, ino), cur, parts) == Walk(t, cur, parts)
    decreases |parts|
  {
    if parts != [] {
      var t' := Added(t, next, ino);
      ChildIn(t, t[cur].children, parts[0]);
      var c := Child(t, t[cur].children, parts[0]);
      ChildKept(t, next, ino, t[cur].children, parts[0]);
      if cur == ino.parent { ChildAppend(t', t[cur].children, next, parts[0]); }
      WalkKept(t, next, ino, c.value, parts[1..]);
    }
  }

  function Without(ch: seq<nat>, id: nat): (r: seq<nat>)
    ensures forall c :: c in r <==> c in ch && c != id
  {
    if ch == [] then [] else if ch[0] == id then Without(ch[1..], id) else [ch[0]] + Without(ch[1..], id)
  }

  /** The inode is taken out of its parent's list. */
  function Detached(t: Inodes, id: nat): Inodes
    requires id in t
  {
    var p := t[id].parent;
    if p in t then t[p := t[p].(children := Without(t[p].children, id))] else t
  }

  /** The inode becomes the last child of another, under a new name. */
  function Attached(t: Inodes, id: nat, dir: nat, name: string): Inodes
    requires id in t && dir in t
  {
    var t1 := t[dir := t[dir].(children := t[dir].children + [id])];
    t1[id := t1[id].(name := name, parent := dir)]
  }

  // ---- Siblings -----------------------------------------------------------------------------------

  /** An inode is listed once, by its parent alone, and no two children of a directory have the same
      name. A file can have children too: rename does not look. */
  ghost predicate Proper(t: Inodes) { forall d :: d in t ==> ProperAt(t, d, t[d].children) }

  ghost predicate ProperAt(t: Inodes, d: nat, ch: seq<nat>)
    requires d in t
  {
    && (forall c :: c in ch ==> c in t && t[c].parent == d)
    && NoDup(ch) && (t[d].isDirectory ==> OwnNames(t, ch))
  }

  ghost predicate OwnNames(t: Inodes, ch: seq<nat>) {
    forall i, j :: 0 <= i < j < |ch| && ch[i] in t && ch[j] in t ==> t[ch[i]].name != t[ch[j]].name
  }

  /** The child of a name, wherever it stands in the list. */
  lemma {:induction false} ChildIs(t: Inodes, ch: seq<nat>, c: nat)
    requires OwnNames(t, ch) && c in ch && c in t
    ensures Child(t, ch, t[c].name) == Some(c)
    decreases |ch|
  {
    if ch[0] != c {
      var j :| 0 <= j < |ch| && ch[j] == c;
      assert ch[1..][j - 1] == c;
      ChildIs(t, ch[1..], c);
    }
  }

  lemma {:induction false} NoChild(t: Inodes, ch: seq<nat>, name: string)
    ensures Child(t, ch, name) == None <==> forall c :: c in ch && c in t ==> t[c].name != name
    decreases |ch|
  {
    if ch != [] {
      NoChild(t, ch[1..], name);
      assert forall c :: c in ch <==> c == ch[0] || c in ch[1..];
    }
  }

  /** A list whose members keep name and parent stays proper. */
  lemma ProperFrame(t: Inodes, t': Inodes, d: nat, ch: seq<nat>)
    requires d in t && d in t' && t'[d].isDirectory == t[d].isDirectory && ProperAt(t, d, ch)
    requires forall c :: c in ch && c in t ==> c in t' && t'[c].parent == t[c].parent && t'[c].name == t[c].name
    ensures ProperAt(t', d, ch)
  {
  }

  lemma ProperAppend(t: Inodes, d: nat, ch: seq<nat>, id: nat)
    requires d in t && ProperAt(t, d, ch) && id in t && t[id].parent == d && id !in ch
    requires t[d].isDirectory ==> forall c :: c in ch ==> t[c].name != t[id].name
    ensures ProperAt(t, d, ch + [id])
  {
  }

  lemma AddedProper(t: Inodes, next: nat, ino: Inode)
    requires Proper(t) && Bounded(t, next) && ino.parent in t && ino.children == []
    requires t[ino.parent].isDirectory ==> Child(t, t[ino.parent].children, ino.name) == None
    ensures Proper(Added(t, next, ino))
  {
    hide ProperAt, OwnNames;
    var t' := Added(t, next, ino);
    NoChild(t, t[ino.parent].children, ino.name);
    forall d | d in t' ensures ProperAt(t', d, t'[d].children) {
      if d == next {
        ProperEmpty(t', d);
      } else {
        assert ProperAt(t, d, t[d].children);
        ProperFrame(t, t', d, t[d].children);
        if d == ino.parent { AppendNew(t, t', next, ino); }
      }
    }
  }

  lemma ProperEmpty(t: Inodes, d: nat)
    requires d in t
    ensures ProperAt(t, d, [])
  {
  }

  lemma AppendNew(t: Inodes, t': Inodes, next: nat, ino: Inode)
    requires Bounded(t, next) && ino.parent in t && t' == Added(t, next, ino) && next !in t[ino.parent].children
    requires ProperAt(t, ino.parent, t[ino.parent].children) && ProperAt(t', ino.parent, t[ino.parent].children)
    requires t[ino.parent].isDirectory ==> forall c :: c in t[ino.parent].children && c in t ==> t[c].name != ino.name
    ensures ProperAt(t', ino.parent, t'[ino.parent].children)
  {
    ProperAppend(t', ino.parent, t[ino.parent].children, next);
  }

  /** What did not resolve does not resolve now, or it is the new inode. */
  lemma {:induction false} WalkNew(t: Inodes, next: nat, ino: Inode, cur: nat, parts: seq<string>)
    requires Bounded(t, next) && ino.parent in t && cur in t && ino.children == [] && Walk(t, cur, parts) == None
    ensures Walk(Added(t, next, ino), cur, parts) in {None, Some(next)}
    decreases |parts|
  {
    var t' := Added(t, next, ino);
    if t[cur].isDirectory {
      var ch := t[cur].children;
      ChildIn(t, ch, parts[0]);
      ChildKept(t, next, ino, ch, parts[0]);
      ChildAppend(t', ch, next, parts[0]);
      var c := Child(t, ch, parts[0]);
      if c.Some? {
        WalkNew(t, next, ino, c.value, parts[1..]);
      } else if cur == ino.parent {
        assert Child(t', t'[cur].children, parts[0]) in {None, Some(next)};
        assert Walk(t', next, parts[1..]) in {None, Some(next)};
      }
    }
  }

  // ---- Taking an inode out --------------------------------------------------------------------------

  lemma {:induction false} WithoutIs(ch: seq<nat>, id: nat)
    requires NoDup(ch)
    ensures NoDup(Without(ch, id))
    decreases |ch|
  {
    if ch != [] {
      WithoutIs(ch[1..], id);
      assert ch[0] !in ch[1..];
      var r := Without(ch[1..], id);
      forall i, j | 0 <= i < j < |[ch[0]] + r| ensures ([ch[0]] + r)[i] != ([ch[0]] + r)[j] { }
    }
  }

  lemma {:induction false} WithoutNames(t: Inodes, ch: seq<nat>, id: nat)
    requires OwnNames(t, ch)
    ensures OwnNames(t, Without(ch, id))
    decreases |ch|
  {
    if ch != [] {
      WithoutNames(t, ch[1..], id);
      var r := Without(ch[1..], id);
      forall i, j | 0 <= i < j < |[ch[0]] + r| && ([ch[0]] + r)[i] in t && ([ch[0]] + r)[j] in t
        ensures t[([ch[0]] + r)[i]].name != t[([ch[0]] + r)[j]].name
      {
        if i == 0 { assert r[j - 1] in ch[1..]; }
      }
    }
  }

  /** A detached inode is in no list. */
  lemma DetachedProper(t: Inodes, id: nat)
    requires Proper(t) && id in t
    ensures var t' := Detached(t, id);
            && Proper(t') && t'.Keys == t.Keys && (forall d :: d in t' ==> id !in t'[d].children)
            && forall d :: d in t ==> SameBut(t[d], t'[d]) && forall c :: c in t'[d].children <==> c in t[d].children && c != id
  {
    hide OwnNames;
    var t' := Detached(t, id);
    forall d | d in t
      ensures ProperAt(t', d, t'[d].children) && id !in t'[d].children && SameBut(t[d], t'[d])
      ensures forall c :: c in t'[d].children <==> c in t[d].children && c != id
    {
      assert ProperAt(t, d, t[d].children);
      WithoutIs(t[d].children, id);
      if t[d].isDirectory { WithoutNames(t, t[d].children, id); }
      ProperFrame(t, t', d, t'[d].children);
    }
  }

  /** All but the list of children is the same. */
  ghost predicate SameBut(x: Inode, y: Inode) { y.(children := x.children) == x }

  lemma ErasedProper(t: Inodes, id: nat)
    requires Proper(t) && id in t
    ensures Proper(Detached(t, id) - {id})
  {
    hide OwnNames, Detached;
    DetachedProper(t, id);
    var t1 := Detached(t, id);
    var t' := t1 - {id};
    forall d | d in t' ensures ProperAt(t', d, t'[d].children) {
      assert ProperAt(t1, d, t1[d].children);
      ProperFrame(t1, t', d, t1[d].children);
    }
  }

  /** After an inode without children is erased its path does not resolve; every other path
      resolves, or not, as before. */
  lemma {:induction false} ErasedWalk(t: Inodes, id: nat, cur: nat, parts: seq<string>)
    requires Proper(t) && id in t && cur in t && cur != id && (t[id].isDirectory ==> t[id].children == [])
    ensures Walk(Detached(t, id) - {id}, cur, parts) == if Walk(t, cur, parts) == Some(id) then None else Walk(t, cur, parts)
    decreases |parts|
  {
    hide Proper, Detached, Without;
    var t' := Detached(t, id) - {id};
    if parts != [] && t[cur].isDirectory {
      ErasedChild(t, id, cur, parts[0]);
      ChildIn(t, t[cur].children, parts[0]);
      var c := Child(t, t[cur].children, parts[0]);
      if c.Some? && c.value != id { ErasedWalk(t, id, c.value, parts[1..]); }
    } else {
      ErasedKinds(t, id, cur);
    }
  }

  lemma ErasedKinds(t: Inodes, id: nat, cur: nat)
    requires Proper(t) && id in t && cur in t && cur != id
    ensures var t' := Detached(t, id) - {id}; cur in t' && t'[cur].isDirectory == t[cur].isDirectory
  {
  }

  lemma ErasedChild(t: Inodes, id: nat, cur: nat, name: string)
    requires Proper(t) && id in t && cur in t && cur != id && t[cur].isDirectory
    ensures var t' := Detached(t, id) - {id};
            && cur in t' && t'[cur].isDirectory
            && Child(t', t'[cur].children, name) ==
               if Child(t, t[cur].children, name) == Some(id) then None else Child(t, t[cur].children, name)
  {
    var t1, t' := Detached(t, id), Detached(t, id) - {id};
    DetachedProper(t, id);
    ErasedProper(t, id);
    var ch, ch' := t[cur].children, t'[cur].children;
    NoChild(t, ch, name);
    NoChild(t', ch', name);
    ChildIn(t, ch, name);
    var c := Child(t, ch, name);
    if c == Some(id) {
      forall x | x in ch' && x in t' ensures t'[x].name != name { if t[x].name == name { ChildIs(t, ch, x); } }
    } else if c.Some? {
      ChildIs(t', ch', c.value);
    }
  }

  // ---- Moving an inode --------------------------------------------------------------------------------

  lemma AttachedProper(t: Inodes, id: nat, dir: nat, name: string)
    requires Proper(t) && id in t && dir in t && forall d :: d in t ==> id !in t[d].children
    requires t[dir].isDirectory ==> Child(t, t[dir].children, name) == None
    ensures Proper(Attached(t, id, dir, name))
  {
    hide OwnNames;
    var t' := Attached(t, id, dir, name);
    NoChild(t, t[dir].children, name);
    forall d | d in t' ensures ProperAt(t', d, t'[d].children) {
      assert ProperAt(t, d, t[d].children);
      ProperFrame(t, t', d, t[d].children);
      if d == dir { ProperAppend(t', d, t[d].children, id); }
    }
  }

  /** The walk never stands on id. */
  ghost predicate Avoids(t: Inodes, cur: nat, parts: seq<string>, id: nat)
    decreases |parts|
  {
    cur != id && (parts == [] || cur !in t || !t[cur].isDirectory
      || match Child(t, t[cur].children, parts[0]) case None => true case Some(c) => Avoids(t, c, parts[1..], id))
  }

  /** A child other than id is found in the list it was in. */
  lemma MovedChild(t: Inodes, id: nat, dir: nat, name: string, cur: nat, c: nat)
    requires Proper(t) && id in t && dir in t && cur in t && t[cur].isDirectory && c in t[cur].children && c in t && c != id
    requires Proper(Attached(Detached(t, id), id, dir, name))
    ensures var t' := Attached(Detached(t, id), id, dir, name);
            cur in t' && t'[cur].isDirectory && c in t' && Child(t', t'[cur].children, t[c].name) == Some(c)
  {
    hide OwnNames;
    DetachedProper(t, id);
    var t' := Attached(Detached(t, id), id, dir, name);
    assert ProperAt(t', cur, t'[cur].children);
    ChildIs(t', t'[cur].children, c);
  }

  /** A path that does not lead through the moved inode resolves as before. */
  lemma {:induction false} MovedWalk(t: Inodes, id: nat, dir: nat, name: string, cur: nat, parts: seq<string>)
    requires Proper(t) && id in t && dir in t && cur in t && Avoids(t, cur, parts, id) && Walk(t, cur, parts).Some?
    requires Proper(Attached(Detached(t, id), id, dir, name))
    ensures Walk(Attached(Detached(t, id), id, dir, name), cur, parts) == Walk(t, cur, parts)
    decreases |parts|
  {
    hide Proper, Attached, Detached;
    if parts != [] {
      ChildIn(t, t[cur].children, parts[0]);
      var c := Child(t, t[cur].children, parts[0]).value;
      assert c != id;
      MovedChild(t, id, dir, name, cur, c);
      MovedWalk(t, id, dir, name, c, parts[1..]);
    }
  }

  /** What lies below the moved inode is found below it again. */
  lemma MovedBelow(t: Inodes, id: nat, dir: nat, name: string, parts: seq<string>, c: nat)
    requires Proper(t) && id in t && dir in t && parts != [] && Walk(t, id, parts).Some?
    requires Child(t, t[id].children, parts[0]) == Some(c) && Avoids(t, c, parts[1..], id)
    requires Proper(Attached(Detached(t, id), id, dir, name))
    ensures Walk(Attached(Detached(t, id), id, dir, name), id, parts) == Walk(t, id, parts)
  {
    hide Proper, Attached, Detached;
    ChildIn(t, t[id].children, parts[0]);
    assert c != id;
    MovedChild(t, id, dir, name, id, c);
    MovedWalk(t, id, dir, name, c, parts[1..]);
  }

  /** The new name leads to the moved inode exactly if it was put into a directory; in a file it is
      out of reach. */
  lemma MovedThere(t: Inodes, root: nat, id: nat, dir: nat, name: string, front: seq<string>)
    requires Proper(t) && root in t && id in t && dir in t && Walk(t, root, front) == Some(dir) && Avoids(t, root, front, id)
    requires Proper(Attached(Detached(t, id), id, dir, name))
    ensures Walk(Attached(Detached(t, id), id, dir, name), root, front + [name]) == if t[dir].isDirectory then Some(id) else None
  {
    hide OwnNames;
    var t' := Attached(Detached(t, id), id, dir, name);
    MovedWalk(t, id, dir, name, root, front);
    WalkLast(t', root, front, name);
    assert ProperAt(t', dir, t'[dir].children);
    if t[dir].isDirectory { ChildIs(t', t'[dir].children, id); }
  }

  /** The old name is free. */
  lemma MovedAway(t: Inodes, root: nat, id: nat, dir: nat, name: string, front: seq<string>, was: string)
    requires Proper(t) && root in t && id in t && dir in t && Walk(t, root, front + [was]) == Some(id) && Avoids(t, root, front, id)
    requires Proper(Attached(Detached(t, id), id, dir, name))
    requires t[dir].isDirectory ==> Child(t, t[dir].children, name) == None
    ensures Walk(Attached(Detached(t, id), id, dir, name), root, front + [was]) == None
  {
    hide OwnNames, Without, Walk, Avoids;
    WalkLast(t, root, front, was);
    WalkIn(t, root, front);
    var t', p := Attached(Detached(t, id), id, dir, name), Walk(t, root, front).value;
    MovedWalk(t, id, dir, name, root, front);
    WalkLast(t', root, front, was);
    ChildIn(t, t[p].children, was);
    NoChild(t', t'[p].children, was);
    forall c | c in t'[p].children && c in t' ensures t'[c].name != was { NoNamesake(t, id, dir, name, p, was, c); }
  }

  /** The directory that the inode left has no other child of its name. */
  lemma NoNamesake(t: Inodes, id: nat, dir: nat, name: string, p: nat, was: string, c: nat)
    requires Proper(t) && id in t && dir in t && p in t && t[p].isDirectory && Child(t, t[p].children, was) == Some(id)
    requires t[dir].isDirectory ==> Child(t, t[dir].children, name) == None
    requires var t' := Attached(Detached(t, id), id, dir, name); p in t' && c in t'[p].children && c in t'
    ensures Attached(Detached(t, id), id, dir, name)[c].name != was
  {
    hide OwnNames, Without;
    DetachedProper(t, id);
    ChildIn(t, t[p].children, was);
    if c == id {
      NoChild(t, t[dir].children, name);
    } else if t[c].name == was {
      assert ProperAt(t, p, t[p].children);
      ChildIs(t, t[p].children, c);
    }
  }

  // ---- The file system object ---------------------------------------------------------------------

  ghost predicate Sound(t: Inodes, root: nat, cache: map<string, nat>) {
    forall p :: p in cache && cache[p] in t ==> Lookup(t, root, p) == Some(cache[p])
  }

  ghost predicate TreeOk(t: Inodes, root: nat, cache: map<string, nat>, next: nat) {
    && root in t && t[root].isDirectory && Bounded(t, next)
    && (forall p :: p in cache ==> cache[p] < next)
  }

  class FileSystem {
    var inodes: Inodes
    var cache: map<string, nat>
    var next: nat
    const root: nat

    ghost predicate Valid()
      reads this
    {
      TreeOk(inodes, root, cache, next) && Proper(inodes) && Sound(inodes, root, cache)
    }

    constructor ()
      ensures Valid() && inodes.Keys == {root}
    {
      root, next := 1, 2;
      inodes := map[1 := Inode(true, "/", 0, [], "")];
      cache := map["/" := 1];
      new;
      RootPath();
    }

    lemma RootPath()
      ensures Parts(Split("/")) == []
    {
      SpellSplits([]);
    }

    method FindChild(ch: seq<nat>, name: string) returns (c: Option<nat>)
      ensures c == Child(inodes, ch, name)
    {
      var i := 0;
      while i < |ch|
        invariant 0 <= i <= |ch| && Child(inodes, ch, name) == Child(inodes, ch[i..], name)
      {
        assert ch[i..][1..] == ch[i + 1..];
        if ch[i] in inodes && inodes[ch[i]].name == name { return Some(ch[i]); }
        i := i + 1;
      }
      return None;
    }

    method PartsOf(path: string) returns (parts: seq<string>)
      ensures parts == Parts(Split(path))
    {
      var pieces := SplitPieces(path);
      parts := [];
      var i := 0;
      while i < |pieces|
        invariant 0 <= i <= |pieces| && Parts(pieces) == parts + Parts(pieces[i..])
      {
        assert pieces[i..][1..] == pieces[i + 1..];
        if pieces[i] != "" && pieces[i] != "." { parts := parts + [pieces[i]]; }
        i := i + 1;
      }
    }

    /** resolvePath: with the cache or without, the answer of the walk. */
    method ResolvePath(path: string) returns (r: Option<nat>)
      requires Valid()
      modifies this`cache
      ensures Valid() && r == Lookup(inodes, root, path)
      ensures r.Some? ==> r.value in inodes
    {
      WalkIn(inodes, root, Parts(Split(path)));
      if path in cache && cache[path] in inodes { return Some(cache[path]); }
      if path == "/" || path == "" {
        RootPath();
        return Some(root);
      }
      var parts := PartsOf(path);
      var cur, i := root, 0;
      while i < |parts|
        invariant 0 <= i <= |parts| && cur in inodes && cache == old(cache)
        invariant Walk(inodes, root, parts) == Walk(inodes, cur, parts[i..])
      {
        assert parts[i..][0] == parts[i] && parts[i..][1..] == parts[i + 1..];
        if !inodes[cur].isDirectory { return None; }
        var c := FindChild(inodes[cur].children, parts[i]);
        assert Walk(inodes, cur, parts[i..]) == if c.None? then None else Walk(inodes, c.value, parts[i + 1..]);
        if c.None? { return None; }
        ChildIn(inodes, inodes[cur].children, parts[i]);
        cur := c.value;
        i := i + 1;
      }
      assert parts[i..] == [];
      assert Lookup(inodes, root, path) == Some(cur);
      cache := cache[path := cur];
      return Some(cur);
    }

    /** Drops every cached path but the root's. */
    method InvalidateCache()
      requires TreeOk(inodes, root, cache, next) && Proper(inodes)
      modifies this`cache
      ensures Valid() && cache == map["/" := root]
    {
      cache := map["/" := root];
      RootPath();
    }

    /** createFile and makeDirectory: fails exactly when the path exists or its parent is no
        directory; otherwise the new path resolves to the new inode, every path that resolved still
        resolves to what it did, and no other inode than the new one has come into reach. */
    method Create(path: string, isDirectory: bool) returns (ok: bool)
      requires Valid()
      modifies this
      ensures Valid()
      ensures ok <==> old(Lookup(inodes, root, Normalize(path))) == None
                      && IsDirectoryAt(old(inodes), old(Lookup(inodes, root, Parent(Normalize(path)))))
      ensures !ok ==> inodes == old(inodes)
      ensures ok ==> Lookup(inodes, root, Normalize(path)) == Some(old(next))
      ensures ok ==> Grown(old(inodes), inodes, root, old(next))
      ensures ok ==> inodes.Keys == old(inodes).Keys + {old(next)} && old(next) !in old(inodes) && next == old(next) + 1
      ensures ok ==> inodes[old(next)] == Inode(isDirectory, Leaf(Normalize(path)), old(Lookup(inodes, root, Parent(Normalize(path)))).value, [], "")
      ensures ok ==> forall i :: i in old(inodes) ==> SameBut(old(inodes)[i], inodes[i])
    {
      hide Proper, Normalize, Lookup, Parent, Leaf, Grown, Sound;
      var norm := NormalizePath(path);
      var found := ResolvePath(norm);
      if found.Some? { return false; }
      var parent, name := SplitPath(norm);
      var dir := ResolvePath(parent);
      if dir.None? || !inodes[dir.value].isDirectory { return false; }
      ghost var t := inodes;
      var ino := Inode(isDirectory, name, dir.value, [], "");
      AddedLookups(t, root, next, ino, path);
      MissingChild(t, root, path, dir.value);
      AddedProper(t, next, ino);
      AddedSound(t, root, cache, next, ino, norm);
      inodes := Added(inodes, next, ino);
      cache := cache[norm := next];
      next := next + 1;
      return true;
    }

    /** writeFile: a missing file is created first, even if the write is then refused. */
    method Write(path: string, content: string, permitted: bool) returns (ok: bool)
      requires Valid()
      modifies this
      ensures Valid()
      ensures ok <==> permitted && match old(Lookup(inodes, root, Normalize(path)))
                      case None => IsDirectoryAt(old(inodes), old(Lookup(inodes, root, Parent(Normalize(path)))))
                      case Some(id) => !IsDirectoryAt(old(inodes), Some(id))
      ensures ok ==> ContentAt(inodes, Lookup(inodes, root, Normalize(path)), content)
      ensures forall i :: i in old(inodes) && (Some(i) != old(Lookup(inodes, root, Normalize(path))) || !ok) ==> i in inodes && SameBut(old(inodes)[i], inodes[i])
      ensures forall i :: i in inodes && i !in old(inodes) ==> i == old(next) && !inodes[i].isDirectory && (!ok ==> inodes[i].content == "")
      ensures old(Lookup(inodes, root, Normalize(path))).Some? ==> forall p :: Lookup(inodes, root, p) == old(Lookup(inodes, root, p))
      ensures old(Lookup(inodes, root, Normalize(path))).None? ==> inodes == old(inodes) || Grown(old(inodes), inodes, root, old(next))
    {
      hide Proper, Normalize, Lookup, Parent, Leaf;
      var norm := NormalizePath(path);
      NormalizeTwice(path);
      var id := ResolvePath(norm);
      if id.None? {
        var created := Create(norm, false);
        if !created { return false; }
        id := ResolvePath(norm);
      }
      if inodes[id.value].isDirectory || !permitted { return false; }
      SetContent(id.value, content);
      ok := true;
    }

    method SetContent(id: nat, content: string)
      requires Valid() && id in inodes
      modifies this`inodes
      ensures Valid() && inodes == old(inodes)[id := old(inodes)[id].(content := content)]
      ensures forall p :: Lookup(inodes, root, p) == old(Lookup(inodes, root, p))
    {
      SameShape(inodes, inodes[id := inodes[id].(content := content)]);
      SameProper(inodes, inodes[id := inodes[id].(content := content)]);
      inodes := inodes[id := inodes[id].(content := content)];
    }

    method Detach(id: nat)
      requires TreeOk(inodes, root, cache, next) && id in inodes
      modifies this`inodes
      ensures TreeOk(inodes, root, cache, next) && inodes == Detached(old(inodes), id)
    {
      var p := inodes[id].parent;
      if p in inodes { inodes := inodes[p := inodes[p].(children := Without(inodes[p].children, id))]; }
    }

    /** Erases an inode without children: paths to it are gone, all others stay. */
    method Erase(id: nat)
      requires Valid() && id in inodes && id != root && (inodes[id].isDirectory ==> inodes[id].children == [])
      modifies this
      ensures Valid() && inodes == Detached(old(inodes), id) - {id}
      ensures inodes.Keys == old(inodes).Keys - {id} && forall i :: i in inodes ==> SameBut(old(inodes)[i], inodes[i])
      ensures forall p :: Lookup(inodes, root, p) == Except(old(Lookup(inodes, root, p)), id)
    {
      hide Proper;
      ghost var t := inodes;
      ErasedProper(inodes, id);
      Detach(id);
      inodes := inodes - {id};
      InvalidateCache();
      forall p ensures Lookup(inodes, root, p) == Except(Lookup(t, root, p), id) { ErasedWalk(t, id, root, Parts(Split(p))); }
    }

    /** deleteFile. */
    method DeleteFile(path: string, permitted: bool) returns (ok: bool)
      requires Valid()
      modifies this
      ensures Valid()
      ensures ok <==> permitted && old(Lookup(inodes, root, Normalize(path))).Some?
                      && !IsDirectoryAt(old(inodes), old(Lookup(inodes, root, Normalize(path))))
      ensures !ok ==> inodes == old(inodes)
      ensures ok ==> Erased(old(inodes), inodes, old(Lookup(inodes, root, Normalize(path))), false)
      ensures ok ==> inodes.Keys == old(inodes).Keys - {old(Lookup(inodes, root, Normalize(path))).value}
      ensures ok ==> forall i :: i in inodes ==> SameBut(old(inodes)[i], inodes[i])
      ensures ok ==> forall p :: Lookup(inodes, root, p) == Except(old(Lookup(inodes, root, p)), old(Lookup(inodes, root, Normalize(path))).value)
    {
      hide Proper, Lookup, Normalize;
      var norm := NormalizePath(path);
      var id := ResolvePath(norm);
      if id.None? || inodes[id.value].isDirectory || !permitted { return false; }
      Erase(id.value);
      return true;
    }

    /** removeDirectory: the root and directories that are not empty stay. */
    method RemoveDirectory(path: string, permitted: bool) returns (ok: bool)
      requires Valid()
      modifies this
      ensures Valid()
      ensures ok <==> permitted && Normalize(path) != "/"
                      && IsDirectoryAt(old(inodes), old(Lookup(inodes, root, Normalize(path))))
                      && old(inodes)[old(Lookup(inodes, root, Normalize(path))).value].children == []
      ensures !ok ==> inodes == old(inodes)
      ensures ok ==> Erased(old(inodes), inodes, old(Lookup(inodes, root, Normalize(path))), true)
      ensures ok ==> inodes.Keys == old(inodes).Keys - {old(Lookup(inodes, root, Normalize(path))).value}
      ensures ok ==> forall i :: i in inodes ==> SameBut(old(inodes)[i], inodes[i])
      ensures ok ==> forall p :: Lookup(inodes, root, p) == Except(old(Lookup(inodes, root, p)), old(Lookup(inodes, root, Normalize(path))).value)
    {
      hide Proper, Lookup, Normalize;
      var norm := NormalizePath(path);
      if norm == "/" { return false; }
      var id := ResolvePath(norm);
      if id.None? || !inodes[id.value].isDirectory || inodes[id.value].children != [] || !permitted { return false; }
      RootHasChildren(inodes, root, path);
      Erase(id.value);
      return true;
    }

    /** rename: moves an inode to another name, below any inode whatever. Paths that do not lead
        through it stay; the new path leads to it exactly if it came to lie in a directory. */
    method Rename(from: string, to: string, permitted: bool) returns (ok: bool)
      requires Valid()
      modifies this
      ensures Valid()
      ensures ok <==> permitted && old(Lookup(inodes, root, Normalize(from))).Some? && old(Lookup(inodes, root, Normalize(to))).None?
                      && old(Lookup(inodes, root, Parent(Normalize(to)))).Some?
      ensures !ok ==> inodes == old(inodes)
      ensures ok ==> Moved(old(inodes), inodes, old(Lookup(inodes, root, Normalize(from))),
                           old(Lookup(inodes, root, Parent(Normalize(to)))), Leaf(Normalize(to)))
      ensures ok ==> EntryMoved(old(inodes), inodes, old(Lookup(inodes, root, Normalize(from))).value,
                                old(Lookup(inodes, root, Parent(Normalize(to)))).value, Leaf(Normalize(to)))
      ensures ok ==> Relinked(old(inodes), inodes, root, old(Lookup(inodes, root, Normalize(from))).value, from, to)
    {
      hide Proper, Normalize, Parent, Leaf, Sound, Lookup, Relinked, Attached, Detached, Bounded, EntryMoved;
      var source := NormalizePath(from);
      var target := NormalizePath(to);
      var id := ResolvePath(source);
      if id.None? { return false; }
      var there := ResolvePath(target);
      if there.Some? || !permitted { return false; }
      var parent, name := SplitPath(target);
      var dir := ResolvePath(parent);
      if dir.None? { return false; }
      ghost var t := inodes;
      MissingChild(t, root, to, dir.value);
      MoveProper(t, id.value, dir.value, name);
      Detach(id.value);
      AttachOk(inodes, root, cache, next, id.value, dir.value, name);
      inodes := Attached(inodes, id.value, dir.value, name);
      InvalidateCache();
      MoveLinks(t, root, id.value, dir.value, from, to);
      MoveKeeps(t, id.value, dir.value, name);
      return true;
    }
  }

  /** The answer for a path after an inode is gone. */
  function Except(r: Option<nat>, id: nat): Option<nat> { if r == Some(id) then None else r }

  ghost predicate ContentAt(t: Inodes, id: Option<nat>, content: string) {
    id.Some? && id.value in t && t[id.value].content == content
  }

  /** What resolved resolves as before; what did not may lead to the new inode. */
  ghost predicate Grown(t: Inodes, t': Inodes, root: nat, id: nat) {
    forall p :: Lookup(t', root, p) == Lookup(t, root, p) || (Lookup(t, root, p) == None && Lookup(t', root, p) == Some(id))
  }

  /** Where paths lead after a move of id from one path to another. */
  ghost predicate Relinked(t: Inodes, t': Inodes, root: nat, id: nat, from: string, to: string) {
    var source, target := Normalize(from), Normalize(to);
    && (forall p :: Lookup(t, root, p).Some? && Avoids(t, root, Parts(Split(p)), id) ==> Lookup(t', root, p) == Lookup(t, root, p))
    && (Avoids(t, root, Parts(Split(Parent(source))), id) ==> Lookup(t', root, source) == None)
    && (Avoids(t, root, Parts(Split(Parent(target))), id) ==>
          Lookup(t', root, target) == if IsDirectoryAt(t, Lookup(t, root, Parent(target))) then Some(id) else None)
  }

  lemma SameProper(t: Inodes, t': Inodes)
    requires Proper(t) && SameNames(t, t') && forall i :: i in t ==> t'[i].parent == t[i].parent
    ensures Proper(t')
  {
    hide OwnNames;
    forall d | d in t' ensures ProperAt(t', d, t'[d].children) {
      assert ProperAt(t, d, t[d].children);
      ProperFrame(t, t', d, t[d].children);
    }
  }

  /** A path that does not resolve below a directory that does names no child of it. */
  lemma MissingChild(t: Inodes, root: nat, path: string, dir: nat)
    requires root in t && Lookup(t, root, Normalize(path)) == None && Lookup(t, root, Parent(Normalize(path))) == Some(dir) && dir in t
    ensures t[dir].isDirectory ==> Child(t, t[dir].children, Leaf(Normalize(path))) == None
  {
    hide Split, Parts, Reduce, Walk, Parent, Leaf, Spell;
    var parts := PathParts(path);
    WalkNone(t, root, parts);
    var front := FrontParts(path, parts);
    WalkLast(t, root, front, Leaf(Normalize(path)));
  }

  /** The components of a normalized path. */
  lemma PathParts(path: string) returns (parts: seq<string>)
    ensures parts == Reduce(Split(path), []) && AllPlain(parts) && Normalize(path) == Spell(parts) && Parts(Split(Normalize(path))) == parts
  {
    parts := Reduce(Split(path), []);
    ReducePlain(Split(path), []);
    SpellSplits(parts);
  }

  lemma FrontParts(path: string, parts: seq<string>) returns (front: seq<string>)
    requires AllPlain(parts) && Normalize(path) == Spell(parts) && parts != []
    ensures front == parts[..|parts| - 1] && front + [Leaf(Normalize(path))] == parts && Parts(Split(Parent(Normalize(path)))) == front
  {
    hide Split, Parts, Parent, Leaf, Normalize, Spell, Plain;
    SplitsOff(parts);
    front := parts[..|parts| - 1];
    SpellSplits(front);
  }

  lemma MoveProper(t: Inodes, id: nat, dir: nat, name: string)
    requires Proper(t) && id in t && dir in t && (t[dir].isDirectory ==> Child(t, t[dir].children, name) == None)
    ensures id in Detached(t, id) && dir in Detached(t, id) && Proper(Attached(Detached(t, id), id, dir, name))
  {
    hide Proper;
    DetachedProper(t, id);
    var t1 := Detached(t, id);
    if t[dir].isDirectory {
      NoChild(t, t[dir].children, name);
      NoChild(t1, t1[dir].children, name);
    }
    AttachedProper(t1, id, dir, name);
  }

  lemma MoveLinks(t: Inodes, root: nat, id: nat, dir: nat, from: string, to: string)
    requires Proper(t) && root in t && id in t && dir in t && Lookup(t, root, Normalize(from)) == Some(id)
    requires Lookup(t, root, Normalize(to)) == None && Lookup(t, root, Parent(Normalize(to))) == Some(dir)
    requires id in Detached(t, id) && dir in Detached(t, id)
    ensures Relinked(t, Attached(Detached(t, id), id, dir, Leaf(Normalize(to))), root, id, from, to)
  {
    hide Proper, Split, Parts, Reduce, Walk, Parent, Leaf, Spell, Attached, Detached;
    MissingChild(t, root, to, dir);
    var name := Leaf(Normalize(to));
    MoveProper(t, id, dir, name);
    var t' := Attached(Detached(t, id), id, dir, name);
    forall p | Lookup(t, root, p).Some? && Avoids(t, root, Parts(Split(p)), id) ensures Lookup(t', root, p) == Lookup(t, root, p) {
      MovedWalk(t, id, dir, name, root, Parts(Split(p)));
    }
    var parts := PathParts(to);
    WalkNone(t, root, parts);
    var front := FrontParts(to, parts);
    if Avoids(t, root, front, id) { MovedThere(t, root, id, dir, name, front); }
    if Avoids(t, root, Parts(Split(Parent(Normalize(from)))), id) { SourceGone(t, root, id, dir, from, name); }
  }

  lemma SourceGone(t: Inodes, root: nat, id: nat, dir: nat, from: string, name: string)
    requires Proper(t) && root in t && id in t && dir in t && Lookup(t, root, Normalize(from)) == Some(id)
    requires id in Detached(t, id) && dir in Detached(t, id) && Proper(Attached(Detached(t, id), id, dir, name))
    requires t[dir].isDirectory ==> Child(t, t[dir].children, name) == None
    requires Avoids(t, root, Parts(Split(Parent(Normalize(from)))), id)
    ensures Lookup(Attached(Detached(t, id), id, dir, name), root, Normalize(from)) == None
  {
    hide Proper, Split, Parts, Reduce, Parent, Leaf, Spell, Attached, Detached;
    var parts := PathParts(from);
    assert Walk(t, root, parts) == Some(id) && root != id;
    assert parts != [];
    var front := FrontParts(from, parts);
    MovedAway(t, root, id, dir, name, front, Leaf(Normalize(from)));
  }

  /** The inode that a path resolved to, a file or an empty directory, is gone. */
  ghost predicate Erased(t: Inodes, t': Inodes, id: Option<nat>, isDirectory: bool) {
    && id.Some? && id.value in t && t[id.value].isDirectory == isDirectory
    && (isDirectory ==> t[id.value].children == [])
    && t' == Detached(t, id.value) - {id.value}
  }

  /** The moved inode has its new name and parent and is otherwise as it was; so is every other inode
      but for the lists of children. */
  ghost predicate EntryMoved(t: Inodes, t': Inodes, id: nat, dir: nat, name: string) {
    && t'.Keys == t.Keys && id in t && (forall i :: i in t && i != id ==> SameBut(t[i], t'[i]))
    && t'[id].name == name && t'[id].parent == dir && t'[id].isDirectory == t[id].isDirectory && t'[id].content == t[id].content
  }

  lemma MoveKeeps(t: Inodes, id: nat, dir: nat, name: string)
    requires Proper(t) && id in t && dir in t && id in Detached(t, id) && dir in Detached(t, id)
    ensures EntryMoved(t, Attached(Detached(t, id), id, dir, name), id, dir, name)
  {
    DetachedProper(t, id);
  }

  /** The inode that a path resolved to left its parent and is the last child of another. */
  ghost predicate Moved(t: Inodes, t': Inodes, id: Option<nat>, dir: Option<nat>, name: string) {
    && id.Some? && id.value in t && dir.Some? && dir.value in t && dir.value in Detached(t, id.value) && id.value in Detached(t, id.value)
    && t' == Attached(Detached(t, id.value), id.value, dir.value, name)
  }

  lemma AttachOk(t: Inodes, root: nat, cache: map<string, nat>, next: nat, id: nat, dir: nat, name: string)
    requires TreeOk(t, root, cache, next) && id in t && dir in t
    ensures TreeOk(Attached(t, id, dir, name), root, cache, next)
  {
  }

  ghost predicate IsDirectoryAt(t: Inodes, d: Option<nat>) { d.Some? && d.value in t && t[d.value].isDirectory }

  /** Every path that resolved resolves as before, and the new path to the new inode. */
  lemma AddedLookups(t: Inodes, root: nat, next: nat, ino: Inode, path: string)
    requires root in t && Bounded(t, next) && ino.parent in t && t[ino.parent].isDirectory && ino.children == []
    requires Lookup(t, root, Normalize(path)) == None
    requires Lookup(t, root, Parent(Normalize(path))) == Some(ino.parent) && ino.name == Leaf(Normalize(path))
    ensures Lookup(Added(t, next, ino), root, Normalize(path)) == Some(next)
    ensures Grown(t, Added(t, next, ino), root, next)
  {
    hide Split, Parts, Reduce, Added, Walk, Parent, Leaf, Spell;
    var t' := Added(t, next, ino);
    forall p ensures Lookup(t', root, p) == Lookup(t, root, p) || (Lookup(t, root, p) == None && Lookup(t', root, p) == Some(next)) {
      if Lookup(t, root, p).Some? {
        WalkKept(t, next, ino, root, Parts(Split(p)));
      } else {
        WalkNew(t, next, ino, root, Parts(Split(p)));
      }
    }
    var parts := PathParts(path);
    WalkNone(t, root, parts);
    var front := FrontParts(path, parts);
    AddedPath(t, root, next, ino, front);
  }

  lemma WalkNone(t: Inodes, root: nat, parts: seq<string>)
    ensures Walk(t, root, parts) == None ==> parts != []
  {
  }

  /** A name that is missing under a directory names the new child afterwards. */
  lemma AddedPath(t: Inodes, root: nat, next: nat, ino: Inode, front: seq<string>)
    requires root in t && Bounded(t, next) && ino.parent in t && t[ino.parent].isDirectory
    requires Walk(t, root, front + [ino.name]) == None && Walk(t, root, front) == Some(ino.parent)
    ensures Walk(Added(t, next, ino), root, front + [ino.name]) == Some(next)
  {
    var t' := Added(t, next, ino);
    WalkLast(t, root, front, ino.name);
    WalkLast(t', root, front, ino.name);
    WalkKept(t, next, ino, root, front);
    ChildKept(t, next, ino, t[ino.parent].children, ino.name);
    ChildAppend(t', t[ino.parent].children, next, ino.name);
  }

  lemma AddedSound(t: Inodes, root: nat, cache: map<string, nat>, next: nat, ino: Inode, norm: string)
    requires TreeOk(t, root, cache, next) && Sound(t, root, cache) && ino.parent in t && ino.children == []
    requires Lookup(Added(t, next, ino), root, norm) == Some(next)
    requires Grown(t, Added(t, next, ino), root, next)
    ensures TreeOk(Added(t, next, ino), root, cache[norm := next], next + 1)
    ensures Sound(Added(t, next, ino), root, cache[norm := next])
  {
    var t', cache' := Added(t, next, ino), cache[norm := next];
    forall p | p in cache' && cache'[p] in t' ensures Lookup(t', root, p) == Some(cache'[p]) {
      if p != norm { assert cache[p] in t && Lookup(t, root, p) == Some(cache[p]); }
    }
  }

  /** Two tables that differ in contents only resolve every path alike. */
  ghost predicate SameNames(t: Inodes, t': Inodes) {
    t'.Keys == t.Keys && forall i :: i in t ==> t'[i].name == t[i].name && t'[i].isDirectory == t[i].isDirectory && t'[i].children == t[i].children
  }

  lemma {:induction false} SameChild(t: Inodes, t': Inodes, ch: seq<nat>, name: string)
    requires SameNames(t, t')
    ensures Child(t', ch, name) == Child(t, ch, name)
    decreases |ch|
  {
    if ch != [] { SameChild(t, t', ch[1..], name); }
  }

  lemma {:induction false} SameWalk(t: Inodes, t': Inodes, cur: nat, parts: seq<string>)
    requires SameNames(t, t')
    ensures Walk(t', cur, parts) == Walk(t, cur, parts)
    decreases |parts|
  {
    if parts != [] && cur in t && t[cur].isDirectory {
      SameChild(t, t', t[cur].children, parts[0]);
      var c := Child(t, t[cur].children, parts[0]);
      if c.Some? { SameWalk(t, t', c.value, parts[1..]); }
    }
  }

  lemma SameShape(t: Inodes, t': Inodes)
    requires SameNames(t, t')
    ensures forall root, p {:trigger Lookup(t', root, p)} :: Lookup(t', root, p) == Lookup(t, root, p)
  {
    forall root, p ensures Lookup(t', root, p) == Lookup(t, root, p) { SameWalk(t, t', root, Parts(Split(p))); }
  }

  /** A path other than "/" that resolves starts with a child of the root. */
  lemma RootHasChildren(t: Inodes, root: nat, path: string)
    requires root in t && t[root].isDirectory && Normalize(path) != "/" && Lookup(t, root, Normalize(path)).Some?
    ensures t[root].children != []
  {
    NormalizeTwice(path);
  }
}
