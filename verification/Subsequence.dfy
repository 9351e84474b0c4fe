// Subsequences, by the positions they come from.
module Subsequences {

  ghost predicate Increasing(at: seq<nat>) {
    forall i, j | 0 <= i < j < |at| :: at[i] < at[j]
  }

  // a's elements sit in b at the positions at, in order.
  ghost predicate Embeds<T>(a: seq<T>, b: seq<T>, at: seq<nat>) {
    && |at| == |a| && Increasing(at)
    && forall i | 0 <= i < |a| :: at[i] < |b| && a[i] == b[at[i]]
  }

  ghost predicate IsSubsequence<T>(a: seq<T>, b: seq<T>) {
    exists at :: Embeds(a, b, at)
  }

  lemma SubsequenceOfSelf<T>(a: seq<T>)
    ensures IsSubsequence(a, a)
  {
    var at: seq<nat> := seq(|a|, i requires 0 <= i < |a| => i);
    assert Embeds(a, a, at);
  }

  lemma EmptyIsSubsequence<T>(b: seq<T>)
    ensures IsSubsequence([], b)
  {
    assert Embeds([], b, []);
  }

  // The last element either comes from the last one or can do without it.
  lemma SplitLast<T>(a: seq<T>, b: seq<T>) returns (taken: bool)
    requires IsSubsequence(a, b) && a != []
    ensures b != []
    ensures if taken then a[|a| - 1] == b[|b| - 1] && IsSubsequence(a[..|a| - 1], b[..|b| - 1])
            else IsSubsequence(a, b[..|b| - 1])
  {
    var at: seq<nat> :| Embeds(a, b, at);
    var n := |a| - 1;
    taken := at[n] == |b| - 1;
    if taken {
      assert forall i | 0 <= i < n :: at[i] < at[n];
      assert Embeds(a[..n], b[..|b| - 1], at[..n]);
    } else {
      assert forall i | 0 <= i < n :: at[i] < at[n];
      assert Embeds(a, b[..|b| - 1], at);
    }
  }

  lemma Skip<T>(a: seq<T>, b: seq<T>, tail: seq<T>)
    requires IsSubsequence(a, b)
    ensures IsSubsequence(a, b + tail)
  {
    var at: seq<nat> :| Embeds(a, b, at);
    assert Embeds(a, b + tail, at);
  }

  lemma Extend<T>(a: seq<T>, b: seq<T>, x: T)
    requires IsSubsequence(a, b)
    ensures IsSubsequence(a + [x], b + [x])
  {
    var at: seq<nat> :| Embeds(a, b, at);
    assert Embeds(a + [x], b + [x], at + [|b|]);
  }

  lemma Forget<T>(pre: seq<T>, x: T, post: seq<T>, b: seq<T>)
    requires IsSubsequence(pre + [x] + post, b)
    ensures IsSubsequence(pre + post, b)
  {
    var a := pre + [x] + post;
    var at: seq<nat> :| Embeds(a, b, at);
    var shorter := at[..|pre|] + at[|pre| + 1..];
    forall i | 0 <= i < |pre + post| ensures (pre + post)[i] == b[shorter[i]] {
      assert (pre + post)[i] == a[if i < |pre| then i else i + 1];
    }
    assert Embeds(pre + post, b, shorter);
  }

  lemma Prefix<T>(a: seq<T>, rest: seq<T>, b: seq<T>)
    requires IsSubsequence(a + rest, b)
    ensures IsSubsequence(a, b)
  {
    var at: seq<nat> :| Embeds(a + rest, b, at);
    forall i | 0 <= i < |a| ensures a[i] == b[at[i]] {
      assert a[i] == (a + rest)[i];
    }
    assert Embeds(a, b, at[..|a|]);
  }

  lemma PrefixIsSubsequence<T>(a: seq<T>, b: seq<T>)
    requires a <= b
    ensures IsSubsequence(a, b)
  {
    SubsequenceOfSelf(b);
    assert b == a + b[|a|..];
    Prefix(a, b[|a|..], b);
  }

  lemma Transitive<T>(a: seq<T>, b: seq<T>, c: seq<T>)
    requires IsSubsequence(a, b) && IsSubsequence(b, c)
    ensures IsSubsequence(a, c)
  {
    var f: seq<nat> :| Embeds(a, b, f);
    var g: seq<nat> :| Embeds(b, c, g);
    var h: seq<nat> := seq(|a|, i requires 0 <= i < |a| => g[f[i]]);
    forall i, j | 0 <= i < j < |a| ensures h[i] < h[j] {
      assert f[i] < f[j];
    }
    assert Embeds(a, c, h);
  }

  lemma Both<T>(a: seq<T>, b: seq<T>, c: seq<T>, d: seq<T>)
    requires IsSubsequence(a, b) && IsSubsequence(c, d)
    ensures IsSubsequence(a + c, b + d)
  {
    var f: seq<nat> :| Embeds(a, b, f);
    var g: seq<nat> :| Embeds(c, d, g);
    var h: seq<nat> := f + seq(|c|, i requires 0 <= i < |c| => |b| + g[i]);
    forall i | 0 <= i < |a + c| ensures h[i] < |b + d| && (a + c)[i] == (b + d)[h[i]] {
      if i >= |a| {
        assert h[i] == |b| + g[i - |a|];
      }
    }
    assert Increasing(h);
    assert Embeds(a + c, b + d, h);
  }
}
