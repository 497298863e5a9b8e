/**
 * The canonical cache key of a parameterised request (proj2_nps.py, the key
 * construction inside get_nearby_places): parameter names sorted, each pair
 * written `name-value`, the pairs joined with `_`, prefixed by the endpoint
 * and `_`.
 */
module CacheKey {
  import opened Text
  import opened Sorting

  /**
   * A Python dict of string parameters: its keys in insertion order and its
   * contents. Integer parameters are held as the text `"{}".format` gives them.
   */
  datatype Dict = Dict(order: seq<string>, values: map<string, string>) {
    ghost predicate Valid() {
      && (forall i, j :: 0 <= i < j < |order| ==> order[i] != order[j])
      && (forall k :: k in values <==> k in order)
    }
  }

  /** Python's `d[k] = v`: a new key goes to the end of the order, an old one keeps its place. */
  function Assign(d: Dict, k: string, v: string): (r: Dict)
    requires d.Valid()
    ensures r.Valid()
    ensures r.values == d.values[k := v]
    ensures k in d.values ==> r.order == d.order
    ensures k !in d.values ==> r.order == d.order + [k]
  {
    if k in d.values then Dict(d.order, d.values[k := v])
    else Dict(d.order + [k], d.values[k := v])
  }

  /** The `"{}-{}".format(k, params[k])` strings, one per name, in the given order. */
  function PairStrings(names: seq<string>, values: map<string, string>): seq<string>
    requires forall i :: 0 <= i < |names| ==> names[i] in values
  {
    seq(|names|, i requires 0 <= i < |names| => names[i] + "-" + values[names[i]])
  }

  /** Every sorted name is a key of the dict. */
  lemma SortedNamesPresent(params: Dict)
    requires params.Valid()
    ensures forall i :: 0 <= i < |Sort(params.order)| ==> Sort(params.order)[i] in params.values
  {
    var names := Sort(params.order);
    forall i | 0 <= i < |names| ensures names[i] in params.values {
      assert names[i] in multiset(names);
    }
  }

  /** The key as the source builds it, stated on whole values. */
  function CanonicalKey(endpoint: string, params: Dict): string
    requires params.Valid()
  {
    SortedNamesPresent(params);
    var names := Sort(params.order);
    endpoint + "_" + Join("_", PairStrings(names, params.values))
  }

  /** The key begins with the endpoint. */
  lemma KeyStartsWithEndpoint(endpoint: string, params: Dict)
    requires params.Valid()
    ensures |CanonicalKey(endpoint, params)| > |endpoint|
    ensures forall i :: 0 <= i < |endpoint| ==> CanonicalKey(endpoint, params)[i] == endpoint[i]
  {
  }

  /** The loop of proj2_nps.py that builds `param_strings` from the sorted names. */
  method ParamStrings(names: seq<string>, values: map<string, string>) returns (paramStrings: seq<string>)
    requires forall i :: 0 <= i < |names| ==> names[i] in values
    ensures paramStrings == PairStrings(names, values)
  {
    paramStrings := [];
    for i := 0 to |names|
      invariant |paramStrings| == i
      invariant forall k :: 0 <= k < i ==> paramStrings[k] == names[k] + "-" + values[names[k]]
    {
      paramStrings := paramStrings + [names[i] + "-" + values[names[i]]];
    }
  }

  /** The key construction of get_nearby_places: sort the names, pair them up, join. */
  method BuildKey(endpoint: string, params: Dict) returns (key: string)
    requires params.Valid()
    ensures key == CanonicalKey(endpoint, params)
  {
    SortedNamesPresent(params);
    var names := Sort(params.order);
    var paramStrings := ParamStrings(names, params.values);
    key := endpoint + "_" + Join("_", paramStrings);
  }

  /** A list without repetitions holds each of its elements exactly once. */
  lemma {:induction false} DistinctMultiplicity(s: seq<string>)
    requires forall i, j :: 0 <= i < j < |s| ==> s[i] != s[j]
    ensures forall x :: multiset(s)[x] == if x in s then 1 else 0
  {
    if s != [] {
      DistinctMultiplicity(s[1..]);
      assert s == [s[0]] + s[1..];
      assert s[0] !in s[1..];
      forall x ensures multiset(s)[x] == if x in s then 1 else 0 {
        assert multiset(s)[x] == multiset{s[0]}[x] + multiset(s[1..])[x];
      }
    }
  }

  /**
   * Two dicts with the same contents but any insertion orders give the
   * identical key.
   */
  lemma KeyOrderIndependent(endpoint: string, p: Dict, q: Dict)
    requires p.Valid() && q.Valid()
    requires p.values == q.values
    ensures CanonicalKey(endpoint, p) == CanonicalKey(endpoint, q)
  {
    DistinctMultiplicity(p.order);
    DistinctMultiplicity(q.order);
    assert forall x :: multiset(p.order)[x] == multiset(q.order)[x];
    assert multiset(p.order) == multiset(q.order);
    SortOrderIndependent(p.order, q.order);
  }

  /**
   * Two dicts with the same names and different values can share a key,
   * because `_` and `-` may occur inside a value: moving the text `_b-w`
   * from the end of `a`'s value to the start of `b`'s value leaves the key
   * unchanged (for instance `{a: "1_b-2", b: "3"}` and `{a: "1", b: "2_b-3"}`
   * both give `e_a-1_b-2_b-3`).
   */
  lemma KeyCollision(endpoint: string, a: string, b: string, v: string, w: string, z: string)
    requires a != b && Le(a, b)
    ensures var p := Dict([a, b], map[a := v + "_" + b + "-" + w, b := z]);
            var q := Dict([a, b], map[a := v, b := w + "_" + b + "-" + z]);
            && p.Valid() && q.Valid() && p.values != q.values
            && CanonicalKey(endpoint, p) == CanonicalKey(endpoint, q)
  {
    var va := v + "_" + b + "-" + w;
    var vb := w + "_" + b + "-" + z;
    TwoParameterKey(endpoint, a, b, va, z);
    TwoParameterKey(endpoint, a, b, v, vb);
    assert map[a := va, b := z][a] != map[a := v, b := vb][a] by {
      assert |va| > |v|;
    }
    ShiftAcrossSeparator(endpoint, a, b, v, w, z);
  }

  /** Concatenation does not see where one value ends and the next begins. */
  lemma ShiftAcrossSeparator(endpoint: string, a: string, b: string, v: string, w: string, z: string)
    ensures endpoint + "_" + (a + "-" + (v + "_" + b + "-" + w)) + "_" + (b + "-" + z)
         == endpoint + "_" + (a + "-" + v) + "_" + (b + "-" + (w + "_" + b + "-" + z))
  {
  }

  /** The key of a two-parameter dict whose names are given in sorted order. */
  lemma TwoParameterKey(endpoint: string, a: string, b: string, va: string, vb: string)
    requires a != b && Le(a, b)
    ensures Dict([a, b], map[a := va, b := vb]).Valid()
    ensures CanonicalKey(endpoint, Dict([a, b], map[a := va, b := vb]))
         == endpoint + "_" + (a + "-" + va) + "_" + (b + "-" + vb)
  {
    var d := Dict([a, b], map[a := va, b := vb]);
    var x, y := a + "-" + va, b + "-" + vb;
    assert d.Valid();
    assert Sort(d.order) == [a, b] by { SortTwo(a, b); }
    assert PairStrings([a, b], d.values) == [x, y] by { TwoPairs(a, b, va, vb); }
    KeyFromParts(endpoint, d, [a, b], [x, y]);
    JoinTwo(endpoint, x, y);
  }

  /** The key, given the sorted names and their pair strings. */
  lemma KeyFromParts(endpoint: string, d: Dict, names: seq<string>, ps: seq<string>)
    requires d.Valid() && Sort(d.order) == names
    requires forall i :: 0 <= i < |names| ==> names[i] in d.values
    requires PairStrings(names, d.values) == ps
    ensures CanonicalKey(endpoint, d) == endpoint + "_" + Join("_", ps)
  {
  }

  lemma SortTwo(a: string, b: string)
    requires Le(a, b)
    ensures Sort([a, b]) == [a, b]
  {
    assert [a, b][1..] == [b];
    assert Sort([b]) == Insert(b, []) == [b];
  }

  lemma TwoPairs(a: string, b: string, va: string, vb: string)
    requires a != b
    ensures PairStrings([a, b], map[a := va, b := vb]) == [a + "-" + va, b + "-" + vb]
  {
  }

  lemma JoinTwo(endpoint: string, x: string, y: string)
    ensures endpoint + "_" + Join("_", [x, y]) == endpoint + "_" + x + "_" + y
  {
    assert [x, y][1..] == [y];
  }

  /** A sorted rearrangement of a list without repetitions has none either. */
  lemma SortDistinct(s: seq<string>)
    requires forall i, j :: 0 <= i < j < |s| ==> s[i] != s[j]
    ensures forall i, j :: 0 <= i < j < |Sort(s)| ==> Sort(s)[i] != Sort(s)[j]
  {
    var t := Sort(s);
    DistinctMultiplicity(s);
    forall i, j | 0 <= i < j < |t| ensures t[i] != t[j] {
      RepeatCounted(t, i, j);
    }
  }

  /** An element found at two positions occurs at least twice. */
  lemma RepeatCounted(t: seq<string>, i: nat, j: nat)
    requires i < j < |t|
    ensures t[i] == t[j] ==> multiset(t)[t[j]] >= 2
  {
    assert t == t[..j] + [t[j]] + t[j + 1..];
    assert t[i] in t[..j];
    assert multiset(t)[t[j]] == multiset(t[..j])[t[j]] + 1 + multiset(t[j + 1..])[t[j]];
  }

  /** Updating one parameter changes exactly its own pair string. */
  lemma PairStringsUpdate(names: seq<string>, values: map<string, string>, j: nat, v: string)
    requires forall i, k :: 0 <= i < k < |names| ==> names[i] != names[k]
    requires forall i :: 0 <= i < |names| ==> names[i] in values
    requires j < |names|
    ensures PairStrings(names, values[names[j] := v])
         == PairStrings(names, values)[..j] + [names[j] + "-" + v] + PairStrings(names, values)[j + 1..]
  {
    var ps, qs := PairStrings(names, values), PairStrings(names, values[names[j] := v]);
    var rs := ps[..j] + [names[j] + "-" + v] + ps[j + 1..];
    assert |qs| == |rs|;
    forall k | 0 <= k < |qs| ensures qs[k] == rs[k] {
      if k < j {
        assert rs[k] == ps[k];
      } else if k > j {
        assert rs[k] == ps[k];
      }
    }
  }

  /** The key after setting the value of the `j`-th sorted name. */
  lemma KeyOfUpdate(endpoint: string, p: Dict, j: nat, v: string)
    requires p.Valid() && j < |Sort(p.order)|
    ensures forall i :: 0 <= i < |Sort(p.order)| ==> Sort(p.order)[i] in p.values
    ensures var names := Sort(p.order);
            var ps := PairStrings(names, p.values);
            CanonicalKey(endpoint, Assign(p, names[j], v))
              == endpoint + "_" + Join("_", ps[..j] + [names[j] + "-" + v] + ps[j + 1..])
  {
    var names := Sort(p.order);
    SortedNamesPresent(p);
    assert Assign(p, names[j], v).order == p.order;
    SortDistinct(p.order);
    PairStringsUpdate(names, p.values, j, v);
  }

  /**
   * With everything else fixed, the key is a fixed prefix, then the value
   * assigned to `name`, then a fixed suffix.
   */
  lemma KeyFraming(endpoint: string, p: Dict, name: string) returns (pre: string, post: string)
    requires p.Valid() && name in p.values
    ensures forall v :: CanonicalKey(endpoint, Assign(p, name, v)) == pre + v + post
  {
    var names := Sort(p.order);
    assert name in multiset(names);
    var j :| 0 <= j < |names| && names[j] == name;
    pre, post := FramePrefix(endpoint, p, j), FrameSuffix(p, j);
    forall v ensures CanonicalKey(endpoint, Assign(p, name, v)) == pre + v + post {
      KeyFramedAt(endpoint, p, j, v);
    }
  }

  /** What the key holds before the value of the `j`-th sorted name. */
  function FramePrefix(endpoint: string, p: Dict, j: nat): string
    requires p.Valid() && j < |Sort(p.order)|
  {
    SortedNamesPresent(p);
    var ps := PairStrings(Sort(p.order), p.values);
    endpoint + "_" + JoinBefore("_", ps[..j]) + Sort(p.order)[j] + "-"
  }

  /** What the key holds after the value of the `j`-th sorted name. */
  function FrameSuffix(p: Dict, j: nat): string
    requires p.Valid() && j < |Sort(p.order)|
  {
    SortedNamesPresent(p);
    JoinAfter("_", PairStrings(Sort(p.order), p.values)[j + 1..])
  }

  lemma KeyFramedAt(endpoint: string, p: Dict, j: nat, v: string)
    requires p.Valid() && j < |Sort(p.order)|
    ensures CanonicalKey(endpoint, Assign(p, Sort(p.order)[j], v))
         == FramePrefix(endpoint, p, j) + v + FrameSuffix(p, j)
  {
    var names := Sort(p.order);
    SortedNamesPresent(p);
    var ps := PairStrings(names, p.values);
    var a, b := ps[..j], ps[j + 1..];
    var k := endpoint + "_" + Join("_", a + [names[j] + "-" + v] + b);
    assert CanonicalKey(endpoint, Assign(p, names[j], v)) == k by {
      KeyOfUpdate(endpoint, p, j, v);
    }
    assert FramePrefix(endpoint, p, j) == endpoint + "_" + JoinBefore("_", a) + names[j] + "-";
    assert FrameSuffix(p, j) == JoinAfter("_", b);
    FrameJoin(endpoint, a, names[j], v, b);
  }

  /** The joined key around one part, regrouped as prefix, value, suffix. */
  lemma FrameJoin(endpoint: string, a: seq<string>, name: string, v: string, b: seq<string>)
    ensures endpoint + "_" + Join("_", a + [name + "-" + v] + b)
         == (endpoint + "_" + JoinBefore("_", a) + name + "-") + v + JoinAfter("_", b)
  {
    JoinAround("_", a, name + "-" + v, b);
    Regroup(endpoint + "_", JoinBefore("_", a), name, v, JoinAfter("_", b));
  }

  lemma Regroup(start: string, jb: string, name: string, v: string, ja: string)
    ensures start + (jb + (name + "-" + v) + ja) == (start + jb + name + "-") + v + ja
  {
  }

  /**
   * Assigning two different values to one parameter, and changing nothing
   * else, always gives two different keys.
   */
  lemma KeyInjectiveInValue(endpoint: string, p: Dict, name: string, v1: string, v2: string)
    requires p.Valid() && name in p.values && v1 != v2
    ensures CanonicalKey(endpoint, Assign(p, name, v1)) != CanonicalKey(endpoint, Assign(p, name, v2))
  {
    var pre, post := KeyFraming(endpoint, p, name);
    Framed(pre, v1, v2, post);
  }
}
