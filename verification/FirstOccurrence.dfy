/** Keeping the first of all elements that share a key. */
module FirstOccurrence {
  import opened Common

  function KeysOf<A>(s: seq<A>, key: A -> Text): (k: seq<Text>)
    ensures |k| == |s|
  {
    seq(|s|, i requires 0 <= i < |s| => key(s[i]))
  }

  /** The elements whose key no earlier element has. */
  function FirstOf<A>(s: seq<A>, key: A -> Text): (r: seq<A>)
    ensures |r| <= |s|
  {
    if s == [] then []
    else
      var front, last := s[..|s| - 1], s[|s| - 1];
      if key(last) in KeysOf(front, key) then FirstOf(front, key) else FirstOf(front, key) + [last]
  }

  lemma KeysOfSnoc<A>(s: seq<A>, a: A, key: A -> Text)
    ensures KeysOf(s + [a], key) == KeysOf(s, key) + [key(a)]
  {
  }

  lemma FirstOfSnoc<A>(s: seq<A>, a: A, key: A -> Text)
    ensures FirstOf(s + [a], key) == if key(a) in KeysOf(s, key) then FirstOf(s, key) else FirstOf(s, key) + [a]
  {
    assert (s + [a])[..|s|] == s;
  }

  /** Nothing is lost: the same keys occur. */
  lemma {:induction false} SameKeys<A>(s: seq<A>, key: A -> Text, k: Text)
    ensures k in KeysOf(FirstOf(s, key), key) <==> k in KeysOf(s, key)
  {
    if s != [] {
      var front, last := s[..|s| - 1], s[|s| - 1];
      assert s == front + [last];
      SameKeys(front, key, k);
      SameKeys(front, key, key(last));
      KeysOfSnoc(front, last, key);
      KeysOfSnoc(FirstOf(front, key), last, key);
    }
  }

  /** Nothing is kept twice. */
  lemma {:induction false} KeysAreDistinct<A>(s: seq<A>, key: A -> Text, i: nat, j: nat)
    requires i < j < |FirstOf(s, key)|
    ensures key(FirstOf(s, key)[i]) != key(FirstOf(s, key)[j])
  {
    var front, last := s[..|s| - 1], s[|s| - 1];
    var kept := FirstOf(front, key);
    if key(last) in KeysOf(front, key) {
      KeysAreDistinct(front, key, i, j);
    } else if j < |kept| {
      KeysAreDistinct(front, key, i, j);
    } else {
      SameKeys(front, key, key(last));
      assert KeysOf(kept, key)[i] == key(kept[i]);
    }
  }

  /** Longer inputs only append. */
  lemma {:induction false} FirstOfGrows<A>(s: seq<A>, t: seq<A>, key: A -> Text)
    ensures FirstOf(s, key) <= FirstOf(s + t, key)
  {
    if t == [] {
      assert s + t == s;
    } else {
      var front := t[..|t| - 1];
      FirstOfGrows(s, front, key);
      assert s + t == (s + front) + [t[|t| - 1]];
      FirstOfSnoc(s + front, t[|t| - 1], key);
    }
  }

  /** Position `p` holds the first element with its key. */
  predicate IsFirst<A>(s: seq<A>, key: A -> Text, p: nat)
    requires p < |s|
  {
    forall q | 0 <= q < p :: key(s[q]) != key(s[p])
  }

  /** The positions whose elements are kept. */
  function FirstPositions<A>(s: seq<A>, key: A -> Text): (ps: seq<nat>)
    ensures forall i | 0 <= i < |ps| :: ps[i] < |s|
  {
    if s == [] then []
    else
      var front := s[..|s| - 1];
      var before := FirstPositions(front, key);
      if IsFirst(s, key, |front|) then before + [|front|] else before
  }

  lemma FirstInFront<A>(s: seq<A>, key: A -> Text, p: nat)
    requires p < |s| - 1
    ensures IsFirst(s, key, p) <==> IsFirst(s[..|s| - 1], key, p)
  {
    assert forall q | 0 <= q <= p :: s[..|s| - 1][q] == s[q];
  }

  lemma {:induction false} FirstPositionsAre<A>(s: seq<A>, key: A -> Text)
    ensures forall p: nat | p < |s| :: p in FirstPositions(s, key) <==> IsFirst(s, key, p)
  {
    if s != [] {
      FirstPositionsAre(s[..|s| - 1], key);
      forall p: nat | p < |s| - 1 ensures p in FirstPositions(s, key) <==> IsFirst(s, key, p) { FirstInFront(s, key, p); }
    }
  }

  /** `kept` are the elements of `s` at ascending positions. */
  predicate AreAt<A(==)>(s: seq<A>, ps: seq<nat>, kept: seq<A>) {
    && |ps| == |kept|
    && (forall i | 0 <= i < |ps| :: ps[i] < |s| && kept[i] == s[ps[i]])
    && (forall i, j | 0 <= i < j < |ps| :: ps[i] < ps[j])
  }

  lemma AreAtNext<A>(s: seq<A>, front: seq<A>, ps: seq<nat>, kept: seq<A>)
    requires s != [] && front == s[..|s| - 1] && AreAt(front, ps, kept)
    ensures AreAt(s, ps, kept) && AreAt(s, ps + [|front|], kept + [s[|front|]])
  {
    assert forall i | 0 <= i < |ps| :: front[ps[i]] == s[ps[i]];
  }

  lemma {:induction false} FirstsAreAt<A>(s: seq<A>, key: A -> Text)
    ensures AreAt(s, FirstPositions(s, key), FirstOf(s, key))
  {
    if s != [] {
      var front := s[..|s| - 1];
      FirstsAreAt(front, key);
      LastIsFirst(s, key);
      AreAtNext(s, front, FirstPositions(front, key), FirstOf(front, key));
    }
  }

  /** What is kept are the first elements of each key, in their order. */
  lemma FirstsAreKept<A>(s: seq<A>, key: A -> Text)
    ensures AreAt(s, FirstPositions(s, key), FirstOf(s, key))
    ensures forall p: nat | p < |s| :: p in FirstPositions(s, key) <==> IsFirst(s, key, p)
  {
    FirstsAreAt(s, key);
    FirstPositionsAre(s, key);
  }

  lemma LastIsFirst<A>(s: seq<A>, key: A -> Text)
    requires s != []
    ensures IsFirst(s, key, |s| - 1) <==> key(s[|s| - 1]) !in KeysOf(s[..|s| - 1], key)
  {
    var front := s[..|s| - 1];
    assert forall q | 0 <= q < |front| :: KeysOf(front, key)[q] == key(s[q]);
  }
}
