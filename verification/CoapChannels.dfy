/** Channels that keep order but may lose and repeat datagrams, described by the phases of what was sent into them. */
module CoapChannels {
  import opened CommonDefs

  function Without(ch: seq<bytes>, i: nat): seq<bytes>
    requires i < |ch|
  {
    ch[..i] + ch[i + 1..]
  }

  function Popped(ch: seq<bytes>, repeated: bool): seq<bytes>
    requires ch != []
  {
    if repeated then ch else ch[1..]
  }

  type Phase = iset<bytes>

  /** ch consists of some datagrams of xs[0], then some of xs[1], and so on. */
  ghost predicate Phased(ch: seq<bytes>, xs: seq<Phase>)
    decreases |ch| + |xs|
  {
    if ch == [] then true
    else if xs == [] then false
    else if ch[0] in xs[0] then Phased(ch[1..], xs)
    else Phased(ch, xs[1..])
  }

  lemma {:induction false} PhasedTail(ch: seq<bytes>, xs: seq<Phase>)
    requires ch != [] && Phased(ch, xs)
    ensures Phased(ch[1..], xs)
    decreases |ch|, |xs|, 0
  {
    if ch[0] in xs[0] {
    } else {
      PhasedTail(ch, xs[1..]);
      PhasedSkip(ch[1..], xs[0], xs[1..]);
      assert [xs[0]] + xs[1..] == xs;
    }
  }

  lemma {:induction false} PhasedSkip(ch: seq<bytes>, x: Phase, xs: seq<Phase>)
    requires Phased(ch, xs)
    ensures Phased(ch, [x] + xs)
    decreases |ch|, |xs|, 1
  {
    assert ([x] + xs)[1..] == xs;
    if ch == [] || ch[0] !in x {
    } else {
      PhasedTail(ch, xs);
      PhasedSkip(ch[1..], x, xs);
    }
  }

  lemma {:induction false} PhasedWithout(ch: seq<bytes>, xs: seq<Phase>, i: nat)
    requires i < |ch| && Phased(ch, xs)
    ensures Phased(Without(ch, i), xs)
    decreases |ch| + |xs|
  {
    if i == 0 {
      assert Without(ch, i) == ch[1..];
      PhasedTail(ch, xs);
    } else if ch[0] in xs[0] {
      PhasedWithout(ch[1..], xs, i - 1);
      assert Without(ch, i)[1..] == Without(ch[1..], i - 1);
    } else {
      PhasedWithout(ch, xs[1..], i);
      assert Without(ch, i)[0] == ch[0];
    }
  }

  lemma {:induction false} PhasedAppend(ch: seq<bytes>, xs: seq<Phase>, y: bytes)
    requires Phased(ch, xs) && xs != [] && y in xs[|xs| - 1]
    ensures Phased(ch + [y], xs)
    decreases |ch| + |xs|
  {
    if ch == [] {
      assert ch + [y] == [y];
      if y in xs[0] {
        assert [y][1..] == [];
      } else {
        PhasedAppend(ch, xs[1..], y);
      }
    } else if ch[0] in xs[0] {
      assert (ch + [y])[1..] == ch[1..] + [y];
      PhasedAppend(ch[1..], xs, y);
    } else {
      PhasedAppend(ch, xs[1..], y);
    }
  }

  lemma {:induction false} PhasedWiden(ch: seq<bytes>, xs: seq<Phase>, x: Phase)
    requires Phased(ch, xs)
    ensures Phased(ch, xs + [x])
    decreases |ch| + |xs|
  {
    if ch == [] {
    } else if ch[0] in xs[0] {
      PhasedWiden(ch[1..], xs, x);
    } else {
      assert (xs + [x])[1..] == xs[1..] + [x];
      PhasedWiden(ch, xs[1..], x);
    }
  }

  /** A new datagram sent after everything already in the channel. */
  lemma PhasedSend(ch: seq<bytes>, xs: seq<Phase>, x: Phase, y: bytes)
    requires Phased(ch, xs) && y in x
    ensures Phased(ch + [y], xs + [x])
  {
    PhasedWiden(ch, xs, x);
    PhasedAppend(ch, xs + [x], y);
  }

  lemma PhasedPop(ch: seq<bytes>, xs: seq<Phase>, repeated: bool)
    requires ch != [] && Phased(ch, xs)
    ensures Phased(Popped(ch, repeated), xs)
  {
    PhasedTail(ch, xs);
  }

  /** Phases that allow more. */
  lemma {:induction false} PhasedMore(ch: seq<bytes>, xs: seq<Phase>, ys: seq<Phase>)
    requires Phased(ch, xs) && |xs| == |ys| && forall i :: 0 <= i < |xs| ==> xs[i] <= ys[i]
    ensures Phased(ch, ys)
    decreases |ch| + |xs|
  {
    if ch == [] {
    } else if ch[0] in xs[0] {
      PhasedMore(ch[1..], xs, ys);
    } else {
      PhasedMore(ch, xs[1..], ys[1..]);
      PhasedSkip(ch, ys[0], ys[1..]);
      assert [ys[0]] + ys[1..] == ys;
    }
  }

  lemma {:induction false} PhasedHead(ch: seq<bytes>, xs: seq<Phase>) returns (i: nat)
    requires ch != [] && Phased(ch, xs)
    ensures i < |xs| && ch[0] in xs[i]
    decreases |xs|
  {
    if ch[0] in xs[0] {
      i := 0;
    } else {
      i := PhasedHead(ch, xs[1..]);
      i := i + 1;
    }
  }

  /** Once a datagram that is not of the first phase is at the head, nothing of that phase alone is behind it. */
  lemma PhasedPast(ch: seq<bytes>, x: Phase, xs: seq<Phase>)
    requires ch != [] && ch[0] !in x && Phased(ch, [x] + xs)
    ensures Phased(ch, xs)
  {
    assert ([x] + xs)[0] == x && ([x] + xs)[1..] == xs;
  }
}
