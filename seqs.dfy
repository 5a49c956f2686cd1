/** Generic sequence helpers: order-preserving filtering and duplicate freedom. */
module Seqs {
  predicate NoDups<T(==)>(s: seq<T>)
  {
    forall i, j :: 0 <= i < j < |s| ==> s[i] != s[j]
  }

  /** The elements of `s` that `keep` accepts, in their original order. */
  function Filter<T(!new)>(s: seq<T>, keep: T -> bool): (r: seq<T>)
    ensures |r| <= |s|
    ensures forall x :: x in r <==> x in s && keep(x)
  {
    if s == [] then []
    else
      var rest := Filter(s[..|s| - 1], keep);
      assert forall x :: x in s <==> x in s[..|s| - 1] || x == s[|s| - 1];
      rest + (if keep(s[|s| - 1]) then [s[|s| - 1]] else [])
  }

  /** Filtering never introduces a duplicate. */
  lemma {:induction false} FilterNoDups<T(!new)>(s: seq<T>, keep: T -> bool)
    requires NoDups(s)
    ensures NoDups(Filter(s, keep))
  {
    if s != [] {
      var init := s[..|s| - 1];
      assert NoDups(init);
      FilterNoDups(init, keep);
      assert s[|s| - 1] !in init;
    }
  }

  /** Dropping the first element keeps a duplicate-free sequence duplicate-free, without that element. */
  lemma NoDupsTail<T>(s: seq<T>)
    requires s != [] && NoDups(s)
    ensures NoDups(s[1..]) && s[0] !in s[1..]
  {
    var rest := s[1..];
    forall i, j | 0 <= i < j < |rest|
      ensures rest[i] != rest[j]
    {
      assert rest[i] == s[i + 1] && rest[j] == s[j + 1];
    }
    forall i | 0 <= i < |rest|
      ensures rest[i] != s[0]
    {
      assert rest[i] == s[i + 1];
    }
  }

  /** The map of lists `start` once each pair `(k, xs)` of `appends` in turn has appended `xs` to the list under `k`, if there is one. */
  function Collect<K, V>(start: map<K, seq<V>>, appends: seq<(K, seq<V>)>): map<K, seq<V>>
  {
    if appends == [] then start
    else
      var m := Collect(start, appends[..|appends| - 1]);
      var (k, xs) := appends[|appends| - 1];
      if k in m then m[k := m[k] + xs] else m
  }

  /** Appending never adds or removes a key. */
  lemma {:induction false} CollectDomain<K, V>(start: map<K, seq<V>>, appends: seq<(K, seq<V>)>)
    ensures forall k :: k in Collect(start, appends) <==> k in start
  {
    if appends != [] {
      CollectDomain(start, appends[..|appends| - 1]);
    }
  }

  /** One more append extends the list under its key. */
  lemma CollectSnoc<K, V>(start: map<K, seq<V>>, appends: seq<(K, seq<V>)>, k: K, xs: seq<V>)
    ensures var m := Collect(start, appends);
            Collect(start, appends + [(k, xs)]) == if k in m then m[k := m[k] + xs] else m
  {
    assert (appends + [(k, xs)])[..|appends|] == appends;
  }

  /** The keys appended to. */
  function KeysOf<K, V>(appends: seq<(K, seq<V>)>): set<K>
  {
    set i | 0 <= i < |appends| :: appends[i].0
  }

  /**
   * Starting from empty lists, appends to distinct keys that all have a list leave each list
   * holding exactly what was appended to it.
   */
  lemma {:induction false} CollectByKey<K, V>(start: map<K, seq<V>>, appends: seq<(K, seq<V>)>)
    requires forall k :: k in start ==> start[k] == []
    requires forall i :: 0 <= i < |appends| ==> appends[i].0 in start
    requires forall i, j :: 0 <= i < j < |appends| ==> appends[i].0 != appends[j].0
    ensures forall k :: k in Collect(start, appends) <==> k in start
    ensures forall i :: 0 <= i < |appends| ==> Collect(start, appends)[appends[i].0] == appends[i].1
    ensures forall k :: k in start && k !in KeysOf(appends) ==> Collect(start, appends)[k] == []
  {
    if appends != [] {
      var init := appends[..|appends| - 1];
      var (k, xs) := appends[|appends| - 1];
      var m := Collect(start, init);
      CollectByKey(start, init);
      assert k !in KeysOf(init);
      assert m[k] + xs == xs;
      assert Collect(start, appends) == m[k := xs];
    }
  }
}
