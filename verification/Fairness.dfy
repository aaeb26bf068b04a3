/** Rejection sampling and the shuffle together: every arrangement is equally likely. */
module Fairness {
  import opened Bytes
  import opened KeyedLists
  import opened Sampling

  /** Each word is one the sampler for its position accepts: positions |ws|, |ws| - 1, ..., 1. */
  predicate Accepted(ws: seq<nat>)
    decreases |ws|
  {
    ws == [] || (ws[0] < Zone(ClampU32(|ws| + 1)) && Accepted(ws[1..]))
  }

  /** The indices accepted words select. */
  function Indices(ws: seq<nat>): (js: seq<nat>)
    ensures |js| == |ws| && IsVector(js)
    decreases |ws|
  {
    if ws == [] then [] else [ws[0] % ClampU32(|ws| + 1)] + Indices(ws[1..])
  }

  /** On accepted words the shuffle consumes exactly one word for each position. */
  lemma {:induction false} AcceptedDraws(ws: seq<u32>, tail: seq<u32>)
    requires Accepted(ws)
    ensures DrawIndices(ws + tail, |ws|) == Some((Indices(ws), tail))
    decreases |ws|
  {
    if ws == [] {
      assert ws + tail == tail;
    } else {
      assert (ws + tail)[1..] == ws[1..] + tail;
      AcceptedDraws(ws[1..], tail);
    }
  }

  lemma {:induction false} DrawsConsume(words: seq<u32>, i: nat)
    requires DrawIndices(words, i).Some?
    ensures |DrawIndices(words, i).value.1| + i <= |words|
    decreases i
  {
    hide Draw;
    if i > 0 {
      DrawsConsume(Draw(words, ClampU32(i + 1)).value.1, i - 1);
    }
  }

  /** One word for each position is enough only if every word is accepted. */
  lemma {:induction false} EnoughIffAccepted(ws: seq<u32>)
    ensures Accepted(ws) <==> DrawIndices(ws, |ws|).Some?
    decreases |ws|
  {
    if ws != [] {
      var n := ClampU32(|ws| + 1);
      var k := DrawSkips(ws, n);
      if k > 0 && DrawIndices(ws, |ws|).Some? {
        DrawsConsume(Draw(ws, n).value.1, |ws| - 1);
      }
      EnoughIffAccepted(ws[1..]);
    }
  }

  /** With one word for each position, the shuffle ends exactly if all are accepted, and then with their arrangement. */
  lemma AcceptedShuffles(b: seq<char>, ws: seq<u32>)
    requires b != [] && |ws| == |b| - 1
    ensures ShuffleSpec(b, ws).Some? <==> Accepted(ws)
    ensures Accepted(ws) ==> ShuffleSpec(b, ws) == Some((ShuffleBy(b, Indices(ws)), []))
  {
    hide DrawIndices, ShuffleBy, Accepted, Indices, IsVector;
    EnoughIffAccepted(ws);
    if Accepted(ws) {
      assert ws + [] == ws;
      AcceptedDraws(ws, []);
    }
  }

  // ----- Counting ----------------------------------------------------------------------

  ghost function Pairs(heads: set<nat>, tails: set<seq<nat>>): set<seq<nat>> {
    set w, rest | w in heads && rest in tails :: [w] + rest
  }

  lemma PairsAre(heads: set<nat>, tails: set<seq<nat>>, v: seq<nat>)
    ensures v in Pairs(heads, tails) <==> v != [] && v[0] in heads && v[1..] in tails
  {
    if v in Pairs(heads, tails) {
      var w, rest :| w in heads && rest in tails && [w] + rest == v;
      assert ([w] + rest)[1..] == rest;
    }
    if v != [] {
      assert [v[0]] + v[1..] == v;
    }
  }

  lemma {:induction false} OneHead(w: nat, tails: set<seq<nat>>)
    ensures |Pairs({w}, tails)| == |tails|
    decreases |tails|
  {
    if tails == {} {
      assert Pairs({w}, tails) == {};
    } else {
      var rest :| rest in tails;
      var fewer, last := tails - {rest}, [w] + rest;
      OneHead(w, fewer);
      hide Pairs;
      assert last[1..] == rest;
      forall v ensures v in Pairs({w}, tails) <==> v in Pairs({w}, fewer) || v == last {
        PairsAre({w}, tails, v);
        PairsAre({w}, fewer, v);
        assert v != [] ==> v == [v[0]] + v[1..];
      }
      PairsAre({w}, fewer, last);
      assert Pairs({w}, tails) == Pairs({w}, fewer) + {last};
    }
  }

  lemma {:induction false} PairsCount(heads: set<nat>, tails: set<seq<nat>>)
    ensures |Pairs(heads, tails)| == |heads| * |tails|
    decreases |heads|
  {
    if heads == {} {
      assert Pairs(heads, tails) == {};
    } else {
      var w :| w in heads;
      var fewer := heads - {w};
      PairsCount(fewer, tails);
      OneHead(w, tails);
      PairsSplit(heads, w, tails);
      assert |heads| == |fewer| + 1;
      assert (|fewer| + 1) * |tails| == |fewer| * |tails| + |tails|;
    }
  }

  lemma PairsSplit(heads: set<nat>, w: nat, tails: set<seq<nat>>)
    requires w in heads
    ensures Pairs(heads, tails) == Pairs(heads - {w}, tails) + Pairs({w}, tails)
    ensures Pairs(heads - {w}, tails) !! Pairs({w}, tails)
  {
    hide Pairs;
    forall v
      ensures v in Pairs(heads, tails) <==> v in Pairs(heads - {w}, tails) || v in Pairs({w}, tails)
      ensures !(v in Pairs(heads - {w}, tails) && v in Pairs({w}, tails))
    {
      PairsAre(heads, tails, v);
      PairsAre(heads - {w}, tails, v);
      PairsAre({w}, tails, v);
    }
  }

  /** The accepted word vectors that select the indices `js`. */
  ghost function VectorsFor(js: seq<nat>): set<seq<nat>>
    requires |js| < U32_MAX
    decreases |js|
  {
    if js == [] then {[]}
    else Pairs(WordsFor(Zone(|js| + 1), |js| + 1, js[0]), VectorsFor(js[1..]))
  }

  lemma {:induction false} VectorsForAre(js: seq<nat>, ws: seq<nat>)
    requires |js| < U32_MAX
    ensures ws in VectorsFor(js) <==> |ws| == |js| && Accepted(ws) && Indices(ws) == js
    decreases |js|
  {
    if js != [] && ws != [] {
      VectorsForAre(js[1..], ws[1..]);
      var n := |js| + 1;
      PairsAre(WordsFor(Zone(n), n, js[0]), VectorsFor(js[1..]), ws);
      assert ws == [ws[0]] + ws[1..] && js == [js[0]] + js[1..];
      if |ws| == |js| {
        assert Indices(ws)[0] == ws[0] % n && Indices(ws)[1..] == Indices(ws[1..]);
      }
    } else if js != [] {
      PairsAre(WordsFor(Zone(|js| + 1), |js| + 1, js[0]), VectorsFor(js[1..]), ws);
    }
  }

  /** How many accepted word vectors there are for each index vector over positions n, ..., 1. */
  function Weight(n: nat): nat
    requires n < U32_MAX
  {
    if n == 0 then 1
    else
      var perIndex: nat := Zone(n + 1) / (n + 1);
      perIndex * Weight(n - 1)
  }

  lemma {:induction false} VectorsCount(js: seq<nat>)
    requires |js| < U32_MAX && IsVector(js)
    ensures |VectorsFor(js)| == Weight(|js|)
    decreases |js|
  {
    if js != [] {
      var n := |js| + 1;
      VectorsCount(js[1..]);
      RejectionIsUniform(n, js[0]);
      PairsCount(WordsFor(Zone(n), n, js[0]), VectorsFor(js[1..]));
    }
  }

  /**
   * Every arrangement of distinct elements is produced by the same number of accepted word
   * vectors, so drawing words uniformly makes all arrangements equally likely.
   */
  lemma ShuffleIsUniform<T>(b: seq<T>, p: seq<T>) returns (producing: set<seq<nat>>)
    requires NoDup(b) && 0 < |b| <= U32_MAX && multiset(p) == multiset(b)
    ensures forall ws: seq<nat> :: ws in producing <==>
              |ws| == |b| - 1 && Accepted(ws) && ShuffleBy(b, Indices(ws)) == p
    ensures |producing| == Weight(|b| - 1)
  {
    hide Accepted, Indices, ShuffleBy, NoDup, IsVector, VectorsFor;
    assert |p| == |multiset(p)| && |b| == |multiset(b)|;
    var js := ShuffleOnto(b, p, |b| - 1);
    producing := VectorsFor(js);
    VectorsCount(js);
    forall ws: seq<nat> ensures ws in producing <==>
      (|ws| == |b| - 1 && Accepted(ws) && ShuffleBy(b, Indices(ws)) == p)
    {
      VectorsForAre(js, ws);
      if |ws| == |b| - 1 && ShuffleBy(b, Indices(ws)) == p {
        ShuffleInjective(b, Indices(ws), js);
      }
    }
  }
}
