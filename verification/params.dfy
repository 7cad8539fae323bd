/** The caller's request parameters: a PHP associative array from key to
    value, which keeps its keys in insertion order. Assigning to a key that is
    already present replaces its value in place; `unset` drops the entry. */
module Params {
  import opened Wrappers

  type Params = seq<(string, string)>

  function Keys(p: Params): seq<string>
  {
    seq(|p|, i requires 0 <= i < |p| => p[i].0)
  }

  predicate HasKey(p: Params, k: string)
  {
    k in Keys(p)
  }

  /** No key occurs twice: the shape of every PHP array. */
  predicate Distinct(p: Params)
  {
    forall i, j :: 0 <= i < j < |p| ==> p[i].0 != p[j].0
  }

  lemma KeysCons(p: Params)
    requires |p| > 0
    ensures Keys(p) == [p[0].0] + Keys(p[1..])
  {
  }

  /** `$p[$k]` when `array_key_exists($k, $p)`, else `None`. */
  function Get(p: Params, k: string): (r: Option<string>)
    ensures r.Some? <==> HasKey(p, k)
    ensures r.Some? ==> (k, r.value) in p
    ensures Distinct(p) ==> forall i :: 0 <= i < |p| && p[i].0 == k ==> r == Some(p[i].1)
  {
    if |p| == 0 then None
    else
      KeysCons(p);
      if p[0].0 == k then Some(p[0].1)
      else
        var r := Get(p[1..], k);
        assert forall i :: 1 <= i < |p| ==> p[i] == p[1..][i - 1];
        r
  }

  /** `$p[$k] = $v`: a present key keeps its position and takes the new value,
      an absent key is appended at the end. */
  function Put(p: Params, k: string, v: string): (r: Params)
    ensures Keys(r) == if HasKey(p, k) then Keys(p) else Keys(p) + [k]
    ensures !HasKey(p, k) ==> r == p + [(k, v)]
    ensures Distinct(p) ==> Distinct(r)
  {
    if |p| == 0 then [(k, v)]
    else
      KeysCons(p);
      if p[0].0 == k then
        var r := [(k, v)] + p[1..];
        KeysCons(r);
        assert r[1..] == p[1..];
        r
      else
        var t := Put(p[1..], k, v);
        var r := [p[0]] + t;
        assert !HasKey(p, k) ==> t == p[1..] + [(k, v)] && r == p + [(k, v)];
        KeysCons(r);
        assert r[1..] == t;
        PutDistinct(p, t, r, k);
        r
  }

  lemma PutDistinct(p: Params, t: Params, r: Params, k: string)
    requires |p| > 0 && r == [p[0]] + t && k != p[0].0
    requires Distinct(p) ==> Distinct(t)
    requires forall q :: q in Keys(t) ==> q in Keys(p[1..]) || q == k
    ensures Distinct(p) ==> Distinct(r)
  {
    if Distinct(p) {
      forall j | 0 <= j < |t| ensures t[j].0 != p[0].0 {
        var q := t[j].0;
        assert Keys(t)[j] == q;
        if q in Keys(p[1..]) {
          var i :| 0 <= i < |p| - 1 && Keys(p[1..])[i] == q;
          assert p[i + 1].0 == q;
        }
      }
    }
  }

  /** After `$p[$k] = $v`, key `k` reads back `v` and every other key reads
      back what it did before. */
  lemma {:induction false} GetPut(p: Params, k: string, v: string, q: string)
    ensures Get(Put(p, k, v), q) == if q == k then Some(v) else Get(p, q)
  {
    if |p| > 0 && p[0].0 != k {
      GetPut(p[1..], k, v, q);
      assert Put(p, k, v)[1..] == Put(p[1..], k, v);
    } else if |p| > 0 {
      assert Put(p, k, v)[1..] == p[1..];
    }
  }

  /** The entries of `p` whose key is not in `ks`, in their original order:
      the effect of `unset($p[$k])` for every `k` in `ks`. */
  function Without(p: Params, ks: set<string>): (r: Params)
    ensures forall i :: 0 <= i < |r| ==> r[i].0 !in ks && r[i] in p
    ensures Distinct(p) ==> Distinct(r)
  {
    if |p| == 0 then []
    else
      var t := Without(p[1..], ks);
      if p[0].0 in ks then t
      else
        var r := [p[0]] + t;
        assert r[1..] == t;
        assert Distinct(p) ==> Distinct(r) by {
          if Distinct(p) {
            assert Distinct(p[1..]);
            forall j | 0 <= j < |t| ensures t[j].0 != p[0].0 {
              assert t[j] in p[1..];
            }
          }
        }
        r
  }

  /** After the `unset`, a removed key is absent and every other key reads
      back what it did before. */
  lemma {:induction false} GetWithout(p: Params, ks: set<string>, q: string)
    ensures Get(Without(p, ks), q) == if q in ks then None else Get(p, q)
  {
    if |p| > 0 {
      GetWithout(p[1..], ks, q);
      if p[0].0 !in ks {
        assert Without(p, ks)[1..] == Without(p[1..], ks);
      }
    }
  }

  /** Removing keys one set after another is removing their union. */
  lemma {:induction false} WithoutWithout(p: Params, a: set<string>, b: set<string>)
    ensures Without(Without(p, a), b) == Without(p, a + b)
  {
    if |p| > 0 {
      WithoutWithout(p[1..], a, b);
      if p[0].0 !in a {
        assert Without(p, a)[1..] == Without(p[1..], a);
      }
    }
  }
}
