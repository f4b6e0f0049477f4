/** match_filename and format_83_name. File names are C strings: bytes without a NUL. */
module FatNames {
  import opened FatTypes

  lemma {:induction false} BeforeIs(s: Bytes, n: nat, b: Byte)
    requires n <= |s| && Lacks(s[..n], b) && (n < |s| ==> s[n] == b)
    ensures Before(s, b) == s[..n]
  {
    if n > 0 {
      assert s[0] == s[..n][0];
      assert s[1..][..n - 1] == s[..n][1..];
      BeforeIs(s[1..], n - 1, b);
    }
  }

  /** The entry's name as a string: base, dot, extension. */
  method CleanName(e: Entry) returns (clean: Bytes)
    ensures clean == Clean(NameOf(e))
  {
    clean := [];
    var i := 0;
    while i < 8 && e[i] != SPACE
      invariant 0 <= i <= 8 && clean == e[..i] && Lacks(clean, SPACE)
    {
      clean := clean + [e[i]];
      i := i + 1;
    }
    assert NameOf(e)[..8][..i] == e[..i];
    BeforeIs(NameOf(e)[..8], i, SPACE);
    if e[8] != SPACE {
      clean := clean + [DOT];
      ghost var base := clean;
      ghost var ext := NameOf(e)[8..];
      i := 0;
      while i < 3 && e[8 + i] != SPACE
        invariant 0 <= i <= 3 && clean == base + ext[..i] && Lacks(ext[..i], SPACE)
      {
        assert ext[i] == e[8 + i];
        assert ext[..i + 1] == ext[..i] + [ext[i]];
        clean := clean + [e[8 + i]];
        i := i + 1;
      }
      assert i < 3 ==> ext[i] == SPACE;
      BeforeIs(ext, i, SPACE);
    }
  }

  /** An entry matches a name exactly when the two strings are equal but for case. */
  method MatchFilename(e: Entry, name: Bytes) returns (same: bool)
    requires Lacks(name, 0)
    ensures same <==> Key(NameOf(e)) == UpperAll(name)
  {
    var clean := CleanName(e);
    ghost var text := Before(clean, 0);
    var k := 0;
    while k < |clean| && clean[k] != 0 && k < |name|
      invariant k <= |text| && k <= |name|
      invariant forall j :: 0 <= j < k ==> Upper(clean[j]) == Upper(name[j])
    {
      if Upper(clean[k]) != Upper(name[k]) {
        assert UpperAll(text)[k] == Upper(clean[k]);
        return false;
      }
      k := k + 1;
    }
    assert k < |clean| && clean[k] == 0 ==> k == |text|;
    same := (k == |clean| || clean[k] == 0) && k == |name|;
    if same {
      forall j | 0 <= j < k ensures UpperAll(text)[j] == UpperAll(name)[j] { }
    }
  }

  /** Packs a name into eight plus three bytes, padded with spaces. */
  method FormatName(name: Bytes) returns (out: PackedName)
    ensures out == Format83(name)
  {
    out := seq(11, _ => SPACE);
    ghost var stem, tail := Stem(name), Tail(name);
    var i, o := 0, 0;
    while i < |name| && name[i] != DOT && o < 8
      invariant 0 <= i == o <= 8 && i <= |stem|
      invariant forall j :: 0 <= j < 11 ==> out[j] == if j < o then Upper(stem[j]) else SPACE
      decreases |name| - i
    {
      assert i < |stem|;
      out := out[o := Upper(name[i])];
      o, i := o + 1, i + 1;
    }
    assert o == if |stem| <= 8 then |stem| else 8;
    if i < |name| && name[i] == DOT {
      assert i == |stem|;
      i := i + 1;
      o := 8;
      while i < |name| && o < 11
        invariant 8 <= o <= 11 && i == |stem| + 1 + (o - 8) <= |name|
        invariant forall j :: 0 <= j < 8 ==> out[j] == if j < |stem| then Upper(stem[j]) else SPACE
        invariant forall j :: 8 <= j < 11 ==> out[j] == if j < o then Upper(tail[j - 8]) else SPACE
      {
        out := out[o := Upper(name[i])];
        o, i := o + 1, i + 1;
      }
    }
  }
}
