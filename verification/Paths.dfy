/** Path strings of kernel/src/filesystem.cpp: splitting, normalizing, and the parent of a path. */
module Paths {

  const SLASH: char := '/'

  predicate Lacks(s: string, c: char) { forall i :: 0 <= i < |s| ==> s[i] != c }

  /** The pieces of a string between slashes. */
  function Split(s: string): (r: seq<string>)
    ensures |r| >= 1
    ensures forall i :: 0 <= i < |r| ==> Lacks(r[i], SLASH)
  {
    if s == "" then [""]
    else
      var r := Split(s[..|s| - 1]);
      if s[|s| - 1] == SLASH then r + [""] else r[|r| - 1 := r[|r| - 1] + [s[|s| - 1]]]
  }

  /** normalizePath on pieces: empty and "." vanish, ".." takes one back. */
  function Reduce(pieces: seq<string>, acc: seq<string>): seq<string>
    decreases |pieces|
  {
    if pieces == [] then acc
    else if pieces[0] == "" || pieces[0] == "." then Reduce(pieces[1..], acc)
    else if pieces[0] == ".." then Reduce(pieces[1..], if acc == [] then [] else acc[..|acc| - 1])
    else Reduce(pieces[1..], acc + [pieces[0]])
  }

  /** resolvePath on pieces: ".." is an ordinary name. */
  function Parts(pieces: seq<string>): seq<string> {
    if pieces == [] then []
    else if pieces[0] == "" || pieces[0] == "." then Parts(pieces[1..])
    else [pieces[0]] + Parts(pieces[1..])
  }

  function Join(parts: seq<string>): string {
    if parts == [] then "" else Join(parts[..|parts| - 1]) + "/" + parts[|parts| - 1]
  }

  function Spell(parts: seq<string>): string { if parts == [] then "/" else Join(parts) }

  function Normalize(path: string): string { Spell(Reduce(Split(path), [])) }

  /** A component of a normalized path. */
  predicate Plain(s: string) { s != "" && s != "." && s != ".." && Lacks(s, SLASH) }

  ghost predicate AllPlain(parts: seq<string>) { forall i :: 0 <= i < |parts| ==> Plain(parts[i]) }

  lemma {:induction false} ReducePlain(pieces: seq<string>, acc: seq<string>)
    requires AllPlain(acc) && forall i :: 0 <= i < |pieces| ==> Lacks(pieces[i], SLASH)
    ensures AllPlain(Reduce(pieces, acc))
    decreases |pieces|
  {
    if pieces != [] {
      if pieces[0] == "" || pieces[0] == "." {
        ReducePlain(pieces[1..], acc);
      } else if pieces[0] == ".." {
        ReducePlain(pieces[1..], if acc == [] then [] else acc[..|acc| - 1]);
      } else {
        ReducePlain(pieces[1..], acc + [pieces[0]]);
      }
    }
  }

  lemma {:induction false} SplitPiece(s: string, t: string)
    requires Lacks(t, SLASH)
    ensures Split(s + "/" + t) == Split(s) + [t]
    decreases |t|
  {
    var u := s + "/" + t;
    if t == "" {
      assert u == s + "/";
      assert u[..|u| - 1] == s;
    } else {
      var n := |t| - 1;
      SplitPiece(s, t[..n]);
      assert u[..|u| - 1] == s + "/" + t[..n];
      var r := Split(s) + [t[..n]];
      assert r[|r| - 1 := r[|r| - 1] + [t[n]]] == Split(s) + [t] by { assert t[..n] + [t[n]] == t; }
    }
  }

  lemma {:induction false} SplitJoin(parts: seq<string>)
    requires AllPlain(parts)
    ensures Split(Join(parts)) == [""] + parts
    decreases |parts|
  {
    if parts != [] {
      var n := |parts| - 1;
      SplitJoin(parts[..n]);
      SplitPiece(Join(parts[..n]), parts[n]);
    }
  }

  lemma {:induction false} ReduceKeeps(parts: seq<string>, acc: seq<string>)
    requires AllPlain(parts)
    ensures Reduce(parts, acc) == acc + parts
    decreases |parts|
  {
    if parts != [] {
      assert Plain(parts[0]);
      assert AllPlain(parts[1..]);
      ReduceKeeps(parts[1..], acc + [parts[0]]);
    }
  }

  lemma {:induction false} PartsKeeps(parts: seq<string>)
    requires AllPlain(parts)
    ensures Parts(parts) == parts
    decreases |parts|
  {
    if parts != [] {
      assert Plain(parts[0]);
      assert AllPlain(parts[1..]);
      PartsKeeps(parts[1..]);
    }
  }

  /** What is left of the pieces of a spelled path. */
  lemma SpellSplits(parts: seq<string>)
    requires AllPlain(parts)
    ensures Reduce(Split(Spell(parts)), []) == parts && Parts(Split(Spell(parts))) == parts
  {
    if parts == [] {
      SplitPiece("", "");
      assert Split("/") == ["", ""];
      assert ["", ""][1..] == [""];
    } else {
      SplitJoin(parts);
      var pieces := [""] + parts;
      assert pieces[1..] == parts;
      ReduceKeeps(parts, []);
      PartsKeeps(parts);
    }
  }

  /** Normalizing is idempotent, and leaves no empty, "." or ".." component. */
  lemma NormalizeTwice(path: string)
    ensures Normalize(Normalize(path)) == Normalize(path)
    ensures AllPlain(Parts(Split(Normalize(path)))) && Parts(Split(Normalize(path))) == Reduce(Split(path), [])
  {
    var parts := Reduce(Split(path), []);
    ReducePlain(Split(path), []);
    SpellSplits(parts);
  }

  lemma {:induction false} ReduceLast(pieces: seq<string>, acc: seq<string>, t: string)
    ensures var parts := Reduce(pieces, acc);
            Reduce(pieces + [t], acc) == if t == "" || t == "." then parts
                                         else if t == ".." then (if parts == [] then [] else parts[..|parts| - 1]) else parts + [t]
    decreases |pieces|
  {
    if pieces == [] {
      assert ([] + [t])[1..] == [];
    } else {
      assert (pieces + [t])[1..] == pieces[1..] + [t];
      ReduceLast(pieces[1..], if pieces[0] == "" || pieces[0] == "." then acc
                              else if pieces[0] == ".." then (if acc == [] then [] else acc[..|acc| - 1]) else acc + [pieces[0]], t);
    }
  }

  lemma {:induction false} SplitWhole(t: string)
    requires Lacks(t, SLASH)
    ensures Split(t) == [t]
    decreases |t|
  {
    if t != "" {
      var n := |t| - 1;
      SplitWhole(t[..n]);
      assert t[..n] + [t[n]] == t;
    }
  }

  lemma {:induction false} PartsLast(pieces: seq<string>, t: string)
    ensures Parts(pieces + [t]) == Parts(pieces) + if t == "" || t == "." then [] else [t]
    decreases |pieces|
  {
    if pieces == [] {
      assert ([] + [t])[1..] == [];
    } else {
      assert (pieces + [t])[1..] == pieces[1..] + [t];
      PartsLast(pieces[1..], t);
    }
  }

  /** What normalizing does to a path s followed by one more component: nothing for an empty one or
      ".", the parent for "..", and one more component for any other. */
  lemma NormalizeStep(s: string, t: string)
    requires Lacks(t, SLASH)
    ensures Normalize(s + "/" + t) ==
            if t == "" || t == "." then Normalize(s)
            else if t == ".." then Parent(Normalize(s))
            else (if Normalize(s) == "/" then "" else Normalize(s)) + "/" + t
  {
    var pieces := Split(s);
    var parts := Reduce(pieces, []);
    SplitPiece(s, t);
    ReduceLast(pieces, [], t);
    ReducePlain(pieces, []);
    hide Split, Reduce, Spell;
    SpellRoot(parts);
    SpellMore(parts, t);
    if parts != [] { SplitsOff(parts); } else { LastSlashIs("/", 0); }
  }

  lemma SpellMore(parts: seq<string>, t: string)
    ensures Spell(parts + [t]) == (if parts == [] then "" else Spell(parts)) + "/" + t
  {
    var more := parts + [t];
    assert more[..|parts|] == parts && more[|more| - 1] == t;
    assert Join(more) == Join(parts) + "/" + t;
  }

  lemma SpellRoot(parts: seq<string>)
    requires AllPlain(parts)
    ensures Spell(parts) == "/" <==> parts == []
  {
    if parts != [] { NotRoot(parts); }
  }

  /** A path without a slash. */
  lemma NormalizeWhole(t: string)
    requires Lacks(t, SLASH)
    ensures Normalize(t) == if t == "" || t == "." || t == ".." then "/" else "/" + t
  {
    SplitWhole(t);
    ReduceLast([], [], t);
    assert [] + [t] == [t];
    SpellMore([], t);
  }

  lemma NotRoot(parts: seq<string>)
    requires AllPlain(parts) && parts != []
    ensures Spell(parts) != "/"
  {
    var n := |parts| - 1;
    assert Plain(parts[n]);
    assert Spell(parts)[|Spell(parts)| - 1] == parts[n][|parts[n]| - 1];
    assert parts[n][|parts[n]| - 1] != SLASH;
  }

  // ---- The parent of a path -----------------------------------------------------------------------

  /** The position of the last slash, -1 if there is none. */
  function LastSlash(s: string): (r: int)
    ensures -1 <= r < |s|
    ensures r >= 0 ==> s[r] == SLASH
    ensures forall i :: r < i < |s| ==> s[i] != SLASH
  {
    if s == "" then -1 else if s[|s| - 1] == SLASH then |s| - 1 else LastSlash(s[..|s| - 1])
  }

  function Parent(s: string): string {
    var pos := LastSlash(s);
    if pos <= 0 then "/" else s[..pos]
  }

  function Leaf(s: string): string {
    var pos := LastSlash(s);
    if pos < 0 then s else s[pos + 1..]
  }

  lemma LastSlashIs(s: string, p: nat)
    requires p < |s| && s[p] == SLASH && Lacks(s[p + 1..], SLASH)
    ensures LastSlash(s) == p
  {
    forall i | p < i < |s| ensures s[i] != SLASH { assert s[i] == s[p + 1..][i - p - 1]; }
  }

  lemma {:induction false} JoinStarts(parts: seq<string>)
    requires parts != []
    ensures Join(parts) != ""
    decreases |parts|
  {
  }

  /** The parent of a normalized path has all its components but the last, which is the leaf. */
  lemma SplitsOff(parts: seq<string>)
    requires AllPlain(parts) && parts != []
    ensures Parent(Spell(parts)) == Spell(parts[..|parts| - 1]) && Leaf(Spell(parts)) == parts[|parts| - 1]
  {
    var n := |parts| - 1;
    var front, last := Join(parts[..n]), parts[n];
    var s := front + "/" + last;
    assert Plain(last);
    assert s[|front| + 1..] == last;
    LastSlashIs(s, |front|);
    assert s[..|front|] == front;
    if n > 0 { JoinStarts(parts[..n]); }
  }

  // ---- Methods ------------------------------------------------------------------------------------

  method SplitPieces(path: string) returns (pieces: seq<string>)
    ensures pieces == Split(path)
  {
    pieces := [""];
    var i := 0;
    while i < |path|
      invariant 0 <= i <= |path| && pieces == Split(path[..i])
    {
      assert path[..i + 1][..i] == path[..i];
      if path[i] == SLASH {
        pieces := pieces + [""];
      } else {
        pieces := pieces[|pieces| - 1 := pieces[|pieces| - 1] + [path[i]]];
      }
      i := i + 1;
    }
    assert path[..i] == path;
  }

  /** normalizePath. */
  method NormalizePath(path: string) returns (r: string)
    ensures r == Normalize(path)
  {
    var pieces := SplitPieces(path);
    var parts: seq<string> := [];
    var i := 0;
    while i < |pieces|
      invariant 0 <= i <= |pieces| && Reduce(pieces, []) == Reduce(pieces[i..], parts)
    {
      assert pieces[i..][1..] == pieces[i + 1..];
      if pieces[i] == "" || pieces[i] == "." {
      } else if pieces[i] == ".." {
        if parts != [] { parts := parts[..|parts| - 1]; }
      } else {
        parts := parts + [pieces[i]];
      }
      i := i + 1;
    }
    if parts == [] { return "/"; }
    r := "";
    i := 0;
    while i < |parts|
      invariant 0 <= i <= |parts| && r == Join(parts[..i])
    {
      assert parts[..i + 1][..i] == parts[..i];
      r := r + "/" + parts[i];
      i := i + 1;
    }
    assert parts[..i] == parts;
  }

  /** rfind of a slash. */
  method FindLastSlash(path: string) returns (pos: int)
    ensures pos == LastSlash(path)
  {
    hide LastSlash;
    pos := |path| - 1;
    while pos >= 0 && path[pos] != SLASH
      invariant -1 <= pos < |path|
      invariant forall i :: pos < i < |path| ==> path[i] != SLASH
    {
      pos := pos - 1;
    }
  }

  /** splitPath. */
  method SplitPath(path: string) returns (parent: string, leaf: string)
    ensures parent == Parent(path) && leaf == Leaf(path)
  {
    hide LastSlash;
    var pos := FindLastSlash(path);
    if pos < 0 { return "/", path; }
    if pos == 0 { return "/", path[1..]; }
    return path[..pos], path[pos + 1..];
  }
}
