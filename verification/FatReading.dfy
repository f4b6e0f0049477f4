/** What the readers return, and how far a read has come. */
module FatReading {
  import opened FatTypes

  /** At most n bytes of b from an offset on; none beyond the end. */
  function Slice(b: Bytes, offset: nat, n: nat): Bytes {
    if offset >= |b| then [] else if offset + n <= |b| then b[offset..offset + n] else b[offset..]
  }

  lemma SliceNone(b: Bytes)
    ensures Slice(b, 0, 0) == []
  {
  }

  /** What a read of n bytes gives: f is the file, all the bytes of its clusters. If offset + n does
      not fit 32 bits the wrapped sum passes for a small one and the read runs past the end of the
      file to the end of the chain. */
  function ReadBack(f: Bytes, all: Bytes, offset: nat, n: nat): Bytes {
    if offset + n < 0x1_0000_0000 || offset >= |f| then Slice(f, offset, n) else Slice(all, offset, n)
  }

  /** The read is right if and only if the sum fits, the offset is past the end, or the file fills its
      last cluster. */
  lemma ReadBackIff(f: Bytes, all: Bytes, offset: nat, n: nat)
    requires |f| < 0x1_0000_0000 && |f| <= |all| && f == all[..|f|]
    ensures ReadBack(f, all, offset, n) == Slice(f, offset, n) <==>
            offset + n < 0x1_0000_0000 || offset >= |f| || |f| == |all|
  {
    if offset + n >= 0x1_0000_0000 && offset < |f| {
      if |f| == |all| { assert f == all; }
      assert |f| < |all| ==> |Slice(all, offset, n)| > |Slice(f, offset, n)|;
    }
  }

  /** The bytes before position cur have been gone through. */
  ghost predicate Progress(all: Bytes, out: Bytes, cur: nat, offset: nat, want: nat) {
    cur <= |all| && out == Slice(all[..cur], offset, want)
  }

  /** A read that is not complete stands at the start of sector number pos. */
  ghost predicate Reading(all: Bytes, out: Bytes, cur: nat, offset: nat, want: nat, pos: nat) {
    Progress(all, out, cur, offset, want) && (|out| < want ==> cur == 512 * pos)
  }

  lemma ReadingStart(all: Bytes, want: nat)
    ensures Reading(all, [], 0, 0, want, 0)
  {
  }

  lemma ProgressSeek(all: Bytes, cur: nat, offset: nat, want: nat)
    requires cur <= |all| && cur <= offset
    ensures Progress(all, [], cur, offset, want)
  {
  }

  lemma ProgressSkip(all: Bytes, out: Bytes, cur: nat, offset: nat, want: nat)
    requires Progress(all, out, cur, offset, want) && cur + 512 <= |all| && cur + 512 <= offset
    ensures Progress(all, out, cur + 512, offset, want)
  {
  }

  /** Copying what is wanted of one sector. */
  lemma ProgressCopy(all: Bytes, out: Bytes, cur: nat, offset: nat, want: nat, sec: Bytes, start: nat, count: nat)
    requires Progress(all, out, cur, offset, want) && |out| < want && cur + 512 <= |all|
    requires sec == all[cur..cur + 512] && start == (if offset > cur then offset - cur else 0) && start < 512
    requires count == if |out| + 512 - start > want then want - |out| else 512 - start
    ensures Progress(all, out + sec[start..start + count], cur + 512, offset, want)
  {
    var part := sec[start..start + count];
    PartOf(all, cur, sec, start, count);
    if offset > cur {
      assert out == [];
      assert part == all[..cur + 512][offset..offset + count];
    } else {
      if offset < cur { assert all[..cur][offset..] == all[offset..cur]; }
      assert out == all[offset..cur];
      assert part == all[cur..cur + count];
      Joined(all, offset, cur, cur + count);
      assert out + part == all[..cur + 512][offset..cur + count];
    }
  }

  lemma Joined(all: Bytes, a: nat, b: nat, c: nat)
    requires a <= b <= c <= |all|
    ensures all[a..b] + all[b..c] == all[a..c]
  {
  }

  lemma PartOf(all: Bytes, cur: nat, sec: Bytes, start: nat, count: nat)
    requires cur + 512 <= |all| && sec == all[cur..cur + 512] && start + count <= 512
    ensures sec[start..start + count] == all[cur + start..cur + start + count]
  {
    var part, want := sec[start..start + count], all[cur + start..cur + start + count];
    assert |part| == |want|;
    forall b | 0 <= b < count ensures part[b] == want[b] {
      assert part[b] == sec[start + b];
      assert want[b] == all[cur + (start + b)];
    }
  }

  lemma ProgressLength(all: Bytes, out: Bytes, cur: nat, offset: nat, want: nat)
    requires Progress(all, out, cur, offset, want)
    ensures |out| <= want
    ensures |out| < want && offset < cur ==> offset + |out| == cur
  {
  }

  lemma ProgressEnd(all: Bytes, out: Bytes, cur: nat, offset: nat, want: nat)
    requires Progress(all, out, cur, offset, want) && (|out| == want || cur == |all|)
    ensures out == Slice(all, offset, want)
  {
    if cur == |all| {
      assert all[..cur] == all;
    } else if want > 0 {
      assert out == all[..cur][offset..offset + want];
    }
  }

  /** Clipping a read to the size of the file. */
  lemma Clipped(all: Bytes, size: nat, offset: nat, n: nat)
    requires size <= |all| && offset < size
    ensures Slice(all, offset, if offset + n > size then size - offset else n) == Slice(Take(all, size), offset, n)
  {
  }
}
