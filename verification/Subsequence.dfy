// Subsequences, by an explicit embedding of positions.
module Subsequence {
  import opened Types

  ghost predicate Embeds<T>(f: seq<nat>, a: seq<T>, b: seq<T>) {
    && |f| == |a|
    && (forall i :: 0 <= i < |f| ==> f[i] < |b| && a[i] == b[f[i]])
    && (forall i, j :: 0 <= i < j < |f| ==> f[i] < f[j])
  }

  ghost predicate Subseq<T>(a: seq<T>, b: seq<T>) {
    exists f :: Embeds(f, a, b)
  }

  lemma {:induction false} SubseqEmpty<T>(b: seq<T>)
    ensures Subseq([], b)
  {
    assert Embeds([], [], b);
  }

  lemma {:induction false} SubseqNotEmpty<T>(a: seq<T>, b: seq<T>)
    requires Subseq(a, b) && a != []
    ensures b != []
  {
    var f :| Embeds(f, a, b);
    assert f[0] < |b|;
  }

  lemma {:induction false} SubseqAppend<T>(a: seq<T>, b: seq<T>, c: seq<T>)
    requires Subseq(a, b)
    ensures Subseq(a + c, b + c)
  {
    var f :| Embeds(f, a, b);
    var g := f + seq(|c|, i requires 0 <= i => |b| + i);
    assert Embeds(g, a + c, b + c);
  }

  lemma {:induction false} SubseqLonger<T>(a: seq<T>, b: seq<T>, c: seq<T>)
    requires Subseq(a, b)
    ensures Subseq(a, b + c)
  {
    var f :| Embeds(f, a, b);
    assert Embeds(f, a, b + c);
  }

  lemma {:induction false} SubseqOneMore<T>(a: seq<T>, b: seq<T>, c: seq<T>, e: T)
    requires Subseq(a, b) && e in c
    ensures Subseq(a + [e], b + c)
  {
    var f :| Embeds(f, a, b);
    var i :| 0 <= i < |c| && c[i] == e;
    var j: nat := |b| + i;
    var g: seq<nat> := f + [j];
    assert Embeds(g, a + [e], b + c);
  }

  lemma {:induction false} SubseqDrop<T>(pre: seq<T>, block: seq<T>, post: seq<T>, b: seq<T>)
    requires Subseq(pre + block + post, b)
    ensures Subseq(pre + post, b)
  {
    var f :| Embeds(f, pre + block + post, b);
    var n, m := |pre|, |pre| + |block|;
    var g := f[..n] + f[m..];
    forall i | 0 <= i < |g| ensures g[i] < |b| && (pre + post)[i] == b[g[i]] {
      if i >= n {
        assert g[i] == f[i + |block|];
        assert (pre + block + post)[i + |block|] == post[i - n];
      } else {
        assert (pre + block + post)[i] == pre[i];
      }
    }
    assert Embeds(g, pre + post, b);
  }

  // Keeping only the last element of a block, or nothing of it.
  lemma {:induction false} SubseqShrink<T>(pre: seq<T>, block: seq<T>, post: seq<T>, b: seq<T>)
    requires Subseq(pre + block + post, b)
    ensures Subseq(pre + LastOf(block) + post, b)
  {
    if block != [] {
      var n := |block| - 1;
      assert pre + block + post == pre + block[..n] + ([block[n]] + post);
      SubseqDrop(pre, block[..n], [block[n]] + post, b);
      assert pre + LastOf(block) + post == pre + ([block[n]] + post);
    }
  }

  lemma {:induction false} LastOfConcat<T>(a: seq<T>, b: seq<T>)
    ensures LastOf(a + b) == if b == [] then LastOf(a) else LastOf(b)
  {
    if b == [] { assert a + b == a; }
  }

  lemma {:induction false} LastOfShrink<T>(pre: seq<T>, block: seq<T>, post: seq<T>)
    ensures LastOf(pre + LastOf(block) + post) == LastOf(pre + block + post)
  {
    LastOfConcat(pre + block, post);
    LastOfConcat(pre, block);
    LastOfConcat(pre + LastOf(block), post);
    LastOfConcat(pre, LastOf(block));
  }
}
