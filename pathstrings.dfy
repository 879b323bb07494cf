/** Slash-delimited strings: Go's `strings.Split(s, "/")`, its inverse
    `strings.Join(xs, "/")` and `strings.TrimLeft(s, "/")`, with the facts
    both packages rely on. */
module PathStrings {

  const Slash: char := '/'

  /** `unicode.IsDigit` on a single byte holds exactly for '0'..'9'. */
  predicate IsDigit(c: char) {
    '0' <= c <= '9'
  }

  predicate AllDigits(s: string) {
    forall k :: 0 <= k < |s| ==> IsDigit(s[k])
  }

  /** The pieces of `s` between slashes, in order; empty pieces are kept and
      a string without a slash is one piece. Defined from the back, so that
      the split of a prefix grows into the split of the whole string. */
  function Split(s: string): (r: seq<string>)
    ensures |r| >= 1
    decreases |s|
  {
    if s == [] then [[]]
    else
      var t := Split(s[..|s| - 1]);
      if s[|s| - 1] == Slash then t + [[]]
      else t[..|t| - 1] + [t[|t| - 1] + [s[|s| - 1]]]
  }

  /** The pieces glued back together with one slash between neighbours. */
  function Join(xs: seq<string>): string
    decreases |xs|
  {
    if |xs| == 0 then []
    else if |xs| == 1 then xs[0]
    else Join(xs[..|xs| - 1]) + [Slash] + xs[|xs| - 1]
  }

  /** Where piece `i` of `xs` begins inside `Join(xs)`. */
  function Offset(xs: seq<string>, i: nat): nat
    requires i <= |xs|
  {
    if i == 0 then 0 else |Join(xs[..i])| + 1
  }

  /** `strings.TrimLeft(s, "/")`: `s` with every leading slash removed. */
  function TrimLeftSlashes(s: string): (r: string)
    ensures |r| <= |s| && r == s[|s| - |r|..]
    ensures forall k :: 0 <= k < |s| - |r| ==> s[k] == Slash
    ensures r == [] || r[0] != Slash
    decreases |s|
  {
    if s != [] && s[0] == Slash then TrimLeftSlashes(s[1..]) else s
  }

  /** A slice of a suffix is a slice of the whole string. */
  lemma DropSlice(p: string, l: nat, a: nat, b: nat)
    requires l <= |p| && a <= b <= |p| - l
    ensures p[l..][a..b] == p[l + a..l + b]
    ensures forall k :: a <= k < b ==> p[l..][k] == p[l + k]
  {
  }

  /** A bounded piece of `path[l..]` is a bounded piece of `path`. */
  lemma ShiftSlice(path: string, l: nat, o: nat, x: string)
    requires l <= |path| && o + |x| <= |path| - l
    requires path[l..][o..o + |x|] == x
    requires o == 0 || path[l..][o - 1] == Slash
    requires o + |x| == |path| - l || path[l..][o + |x|] == Slash
    ensures path[l + o..l + o + |x|] == x
    ensures o == 0 || path[l + o - 1] == Slash
    ensures l + o + |x| == |path| || path[l + o + |x|] == Slash
  {
    DropSlice(path, l, o, o + |x|);
    if o > 0 {
      DropSlice(path, l, o - 1, o);
    }
    if o + |x| < |path| - l {
      DropSlice(path, l, o + |x|, o + |x| + 1);
    }
  }

  /** No piece contains a slash. */
  lemma {:induction false} SplitPieces(s: string)
    ensures forall k :: 0 <= k < |Split(s)| ==> Slash !in Split(s)[k]
    decreases |s|
  {
    if s != [] {
      SplitPieces(s[..|s| - 1]);
    }
  }

  /** Adding one byte either opens a new, empty piece (a slash) or extends
      the last piece. */
  lemma SplitSnoc(s: string, x: char)
    ensures Split(s + [x]) ==
      var t := Split(s);
      if x == Slash then t + [[]] else t[..|t| - 1] + [t[|t| - 1] + [x]]
  {
    assert (s + [x])[..|s + [x]| - 1] == s;
  }

  /** Adding a byte that is not a slash grows the last piece only. */
  lemma SplitSnocLast(s: string, x: char)
    requires x != Slash
    ensures |Split(s + [x])| == |Split(s)|
    ensures Split(s + [x])[|Split(s)| - 1] == Split(s)[|Split(s)| - 1] + [x]
  {
    SplitSnoc(s, x);
  }

  /** Splitting around one slash splits each side independently. */
  lemma {:induction false} SplitConcat(a: string, b: string)
    ensures Split(a + [Slash] + b) == Split(a) + Split(b)
    decreases |b|
  {
    if b == [] {
      SplitSnoc(a, Slash);
      assert a + [Slash] + b == a + [Slash];
    } else {
      var b' := b[..|b| - 1];
      var x := b[|b| - 1];
      var p := a + [Slash] + b';
      assert a + [Slash] + b == p + [x] && b' + [x] == b by {
        assert b == b' + [x];
      }
      SplitConcat(a, b');
      SplitSnoc(p, x);
      SplitSnoc(b', x);
      GrowLast(Split(a), Split(b'), x);
    }
  }

  /** Adding a byte to the pieces `u + t` adds it to the pieces `t`. */
  lemma GrowLast(u: seq<string>, t: seq<string>, x: char)
    requires |t| >= 1
    ensures var ut := u + t;
      (if x == Slash then ut + [[]] else ut[..|ut| - 1] + [ut[|ut| - 1] + [x]]) ==
      u + (if x == Slash then t + [[]] else t[..|t| - 1] + [t[|t| - 1] + [x]])
  {
    var ut := u + t;
    if x == Slash {
      assert ut + [[]] == u + (t + [[]]);
    } else {
      assert ut[..|ut| - 1] == u + t[..|t| - 1];
      assert ut[|ut| - 1] == t[|t| - 1];
    }
  }

  /** A slash at position `k` separates the pieces before it from those after it. */
  lemma SplitAt(s: string, k: nat)
    requires k < |s| && s[k] == Slash
    ensures Split(s) == Split(s[..k]) + Split(s[k + 1..])
  {
    assert s == s[..k] + [Slash] + s[k + 1..];
    SplitConcat(s[..k], s[k + 1..]);
  }

  /** A string without a slash is a single piece. */
  lemma {:induction false} SplitNoSlash(s: string)
    requires Slash !in s
    ensures Split(s) == [s]
    decreases |s|
  {
    if s != [] {
      var s' := s[..|s| - 1];
      assert s == s' + [s[|s| - 1]];
      assert Slash !in s' by {
        forall k | 0 <= k < |s'| ensures s'[k] != Slash {
          assert s'[k] == s[k];
        }
      }
      SplitNoSlash(s');
      SplitSnoc(s', s[|s| - 1]);
    }
  }

  /** A string that is empty or starts with a slash has an empty first piece. */
  lemma SplitFirstEmpty(s: string)
    requires s == [] || s[0] == Slash
    ensures Split(s)[0] == []
  {
    if s != [] {
      SplitAt(s, 0);
    }
  }

  /** Joining the pieces gives back the string. */
  lemma {:induction false} JoinSplit(s: string)
    ensures Join(Split(s)) == s
    decreases |s|
  {
    if s != [] {
      var s' := s[..|s| - 1];
      var x := s[|s| - 1];
      assert s == s' + [x];
      JoinSplit(s');
      SplitSnoc(s', x);
      var t := Split(s');
      if x != Slash && |t| > 1 {
        var u := t[..|t| - 1] + [t[|t| - 1] + [x]];
        assert u[..|u| - 1] == t[..|t| - 1];
      }
    }
  }

  /** Splitting a join of slash-free pieces gives back the pieces. */
  lemma {:induction false} SplitJoin(xs: seq<string>)
    requires |xs| >= 1
    requires forall k :: 0 <= k < |xs| ==> Slash !in xs[k]
    ensures Split(Join(xs)) == xs
    decreases |xs|
  {
    var m := |xs| - 1;
    SplitNoSlash(xs[m]);
    if m > 0 {
      SplitJoin(xs[..m]);
      SplitConcat(Join(xs[..m]), xs[m]);
      assert xs == xs[..m] + [xs[m]];
    }
  }

  /** Piece `i` sits at `Offset(xs, i)` in the joined string, bounded by a
      slash or the string's edge on either side. */
  lemma {:induction false} JoinSlice(xs: seq<string>, i: nat)
    requires i < |xs|
    ensures Offset(xs, i) + |xs[i]| <= |Join(xs)|
    ensures Join(xs)[Offset(xs, i)..Offset(xs, i) + |xs[i]|] == xs[i]
    ensures i == |xs| - 1 <==> Offset(xs, i) + |xs[i]| == |Join(xs)|
    ensures i < |xs| - 1 ==> Join(xs)[Offset(xs, i) + |xs[i]|] == Slash
    ensures 0 < i ==> Join(xs)[Offset(xs, i) - 1] == Slash
    decreases |xs|
  {
    var m := |xs| - 1;
    if m > 0 {
      var j := Join(xs[..m]);
      assert Join(xs) == j + [Slash] + xs[m];
      assert xs[..m + 1] == xs;
      if i < m {
        JoinSlice(xs[..m], i);
        assert xs[..m][..i] == xs[..i];
        assert Offset(xs[..m], i) == Offset(xs, i);
        assert xs[..m][i] == xs[i];
        if i == m - 1 {
          assert Offset(xs, i) + |xs[i]| == |j|;
        }
      }
    }
  }

  /** Piece `i` of `s` sits at `Offset(Split(s), i)` in `s`, bounded by a
      slash or the string's edge on either side. */
  lemma PieceSlice(s: string, i: nat)
    requires i < |Split(s)|
    ensures var x, o := Split(s)[i], Offset(Split(s), i);
      && o + |x| <= |s| && s[o..o + |x|] == x
      && (o == 0 || s[o - 1] == Slash)
      && (o + |x| == |s| || s[o + |x|] == Slash)
  {
    JoinSplit(s);
    JoinSlice(Split(s), i);
  }
}
