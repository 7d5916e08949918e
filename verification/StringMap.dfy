/**
 String ids: a 32-bit polynomial hash, and a trie of eight nibbles that maps ids to strings.

 Layers of the trie are named by the order of their allocation, so that the static root is layer 0 and the word 0
 is the null pointer in every layer.  Strings are named by their addresses.
 */
module StringMap {
  import opened Optional

  const WORD := 0x1_0000_0000

  // ----- the hash ----------------------------------------------------------------------------

  /** The hash of a string of signed characters. */
  function Hash(s: seq<int>): (h: nat)
    ensures h < WORD
  {
    if s == [] then 0 else (257 * Hash(s[..|s| - 1]) + s[|s| - 1]) % WORD
  }

  /** The loop of `hashString`. */
  method HashString(s: seq<int>) returns (hash: nat)
    ensures hash == Hash(s)
  {
    hash := 0;
    for i := 0 to |s|
      invariant hash == Hash(s[..i])
    {
      assert s[..i + 1][..i] == s[..i];
      hash := (257 * hash + s[i]) % WORD;
    }
    assert s[..|s|] == s;
  }

  function Power257(n: nat): (p: nat)
    ensures p > 0
  {
    if n == 0 then 1 else 257 * Power257(n - 1)
  }

  /** The hash without wrap-around. */
  function Polynomial(s: seq<int>): int {
    if s == [] then 0 else 257 * Polynomial(s[..|s| - 1]) + s[|s| - 1]
  }

  lemma ReduceFirst(x: int, c: int)
    ensures (257 * (x % WORD) + c) % WORD == (257 * x + c) % WORD
  {
    var q := x / WORD;
    assert 257 * x + c == (257 * (x % WORD) + c) + 257 * q * WORD;
    AddMultiple(257 * (x % WORD) + c, 257 * q);
  }

  lemma AddMultiple(a: int, k: int)
    ensures (a + k * WORD) % WORD == a % WORD
  {
  }

  lemma {:induction false} HashIsPolynomial(s: seq<int>)
    ensures Hash(s) == Polynomial(s) % WORD
  {
    if s != [] {
      HashIsPolynomial(s[..|s| - 1]);
      ReduceFirst(Polynomial(s[..|s| - 1]), s[|s| - 1]);
    }
  }

  lemma {:induction false} PolynomialOfConcat(s: seq<int>, t: seq<int>)
    ensures Polynomial(s + t) == Polynomial(s) * Power257(|t|) + Polynomial(t)
    decreases |t|
  {
    if t == [] {
      assert s + t == s;
    } else {
      var u, c := t[..|t| - 1], t[|t| - 1];
      assert (s + t)[..|s + t| - 1] == s + u;
      PolynomialOfConcat(s, u);
      assert Polynomial(s) * Power257(|t|) == 257 * (Polynomial(s) * Power257(|u|));
    }
  }

  /** The hash of a concatenation. */
  lemma HashOfConcat(s: seq<int>, t: seq<int>)
    ensures Hash(s + t) == (Hash(s) * Power257(|t|) + Hash(t)) % 0x1_0000_0000
  {
    HashIsPolynomial(s);
    HashIsPolynomial(t);
    HashIsPolynomial(s + t);
    PolynomialOfConcat(s, t);
    CombineModulo(Polynomial(s), Polynomial(t), Power257(|t|));
  }

  lemma CombineModulo(x: int, y: int, p: int)
    ensures (x * p + y) % WORD == (x % WORD * p + y % WORD) % WORD
  {
    var a, q, b, r := x % WORD, x / WORD, y % WORD, y / WORD;
    assert x == a + q * WORD && y == b + r * WORD;
    Combine(a, q, b, r, p);
  }

  lemma Combine(a: int, q: int, b: int, r: int, p: int)
    ensures ((a + q * WORD) * p + (b + r * WORD)) % WORD == (a * p + b) % WORD
  {
    assert (a + q * WORD) * p == a * p + q * p * WORD;
    AddMultiple(a * p + b, q * p + r);
  }

  /** The hashes of strings of one and two characters, from which the law of concatenation gives all others. */
  lemma HashOfCharacters(c: int, d: int)
    ensures Hash([]) == 0 && Hash([c]) == c % 0x1_0000_0000 && Hash([c, d]) == (257 * c + d) % 0x1_0000_0000
  {
    var one, two := [c], [c, d];
    assert one[..|one| - 1] == [] && two[..|two| - 1] == one;
    assert Polynomial(one) == c;
    HashIsPolynomial(one);
    HashIsPolynomial(two);
  }

  /** A string of 7-bit characters other than NUL. */
  predicate Ascii(s: seq<int>) {
    forall i | 0 <= i < |s| :: 1 <= s[i] <= 127
  }

  lemma {:induction false} ShortPolynomial(s: seq<int>)
    requires Ascii(s)
    ensures |s| <= 4 ==> 0 <= Polynomial(s) <= 127 * 17040900
    ensures |s| <= 3 ==> Polynomial(s) <= 127 * 66307
    ensures |s| <= 2 ==> Polynomial(s) <= 127 * 258
    ensures |s| <= 1 ==> Polynomial(s) <= 127
    ensures |s| <= 0 ==> Polynomial(s) == 0
    ensures Polynomial(s) >= 0 && (s != [] ==> Polynomial(s) > 0)
  {
    if s != [] {
      ShortPolynomial(s[..|s| - 1]);
    }
  }

  lemma {:induction false} PolynomialInjective(s: seq<int>, t: seq<int>)
    requires Ascii(s) && Ascii(t) && Polynomial(s) == Polynomial(t)
    ensures s == t
  {
    ShortPolynomial(s);
    ShortPolynomial(t);
    if s != [] {
      var u, v := s[..|s| - 1], t[..|t| - 1];
      assert Polynomial(u) == Polynomial(v) && s[|s| - 1] == t[|t| - 1];
      PolynomialInjective(u, v);
      assert s == u + [s[|s| - 1]] && t == v + [t[|t| - 1]];
    }
  }

  lemma ShortHash(s: seq<int>)
    requires Ascii(s) && |s| <= 4
    ensures Hash(s) == Polynomial(s)
  {
    HashIsPolynomial(s);
    ShortPolynomial(s);
  }

  /** Names of up to four 7-bit characters never collide. */
  lemma ShortNamesNeverCollide(s: seq<int>, t: seq<int>)
    requires Ascii(s) && Ascii(t) && |s| <= 4 && |t| <= 4
    ensures Hash(s) == Hash(t) <==> s == t
  {
    ShortHash(s);
    ShortHash(t);
    if Hash(s) == Hash(t) {
      PolynomialInjective(s, t);
    }
  }

  // ----- nibbles -----------------------------------------------------------------------------

  /** `id >> 4 * d`. */
  function Shift(id: nat, d: nat): nat {
    if d == 0 then id else Shift(id, d - 1) / 16
  }

  function Nibble(id: nat, d: nat): (n: nat)
    ensures n < 16
  {
    Shift(id, d) % 16
  }

  lemma TopNibble(id: nat)
    requires id < WORD
    ensures Shift(id, 8) == 0 && Shift(id, 7) == Nibble(id, 7)
  {
    assert Shift(id, 1) < 0x1000_0000;
    assert Shift(id, 2) < 0x100_0000;
    assert Shift(id, 3) < 0x10_0000;
    assert Shift(id, 4) < 0x1_0000;
    assert Shift(id, 5) < 0x1000;
    assert Shift(id, 6) < 0x100;
    assert Shift(id, 7) < 0x10;
  }

  lemma {:induction false} SameFrom(a: nat, b: nat, d: nat)
    requires d <= 8 && Shift(a, 8) == Shift(b, 8)
    requires forall i: nat | d <= i < 8 :: Nibble(a, i) == Nibble(b, i)
    ensures Shift(a, d) == Shift(b, d)
    decreases 8 - d
  {
    if d < 8 {
      SameFrom(a, b, d + 1);
      assert Nibble(a, d) == Nibble(b, d);
      assert Shift(a, d) / 16 == Shift(b, d) / 16;
    }
  }

  /** The first `n` nibbles of an id. */
  function Path(id: nat, n: nat): (path: seq<nat>)
    ensures |path| == n && forall i: nat | i < n :: path[i] == Nibble(id, i)
  {
    if n == 0 then [] else Path(id, n - 1) + [Nibble(id, n - 1)]
  }

  /** Eight nibbles determine a 32-bit id. */
  lemma NibblesDetermineId(a: nat, b: nat)
    requires a < WORD && b < WORD && Path(a, 7) == Path(b, 7) && Nibble(a, 7) == Nibble(b, 7)
    ensures a == b
  {
    TopNibble(a);
    TopNibble(b);
    assert forall i: nat | i < 7 :: Path(a, 7)[i] == Path(b, 7)[i];
    SameFrom(a, b, 0);
  }

  // ----- the trie ----------------------------------------------------------------------------

  /** `paths` says how each layer is reached: the words of a layer above the last level are null or lead to the
      layer one nibble further. */
  ghost predicate Tree(layers: seq<seq<nat>>, paths: seq<seq<nat>>) {
    && |layers| == |paths| > 0 && paths[0] == []
    && (forall l: nat | l < |layers| :: |layers[l]| == 16 && |paths[l]| <= 7)
    && (forall l: nat, n: nat | l < |layers| && n < 16 && |paths[l]| < 7 && layers[l][n] != 0 ::
          IsChild(paths, layers[l][n], l, n))
  }

  ghost predicate IsChild(paths: seq<seq<nat>>, child: nat, l: nat, n: nat)
    requires l < |paths|
  {
    child < |paths| && paths[child] == paths[l] + [n]
  }

  /** The layer that the first `d` nibbles of `id` lead to. */
  ghost function Reached(layers: seq<seq<nat>>, paths: seq<seq<nat>>, id: nat, d: nat): (layer: Option<nat>)
    requires Tree(layers, paths) && d <= 7
    ensures layer.Some? ==> layer.value < |layers| && paths[layer.value] == Path(id, d)
  {
    if d == 0 then Some(0)
    else
      match Reached(layers, paths, id, d - 1)
      case None => None
      case Some(l) => if layers[l][Nibble(id, d - 1)] == 0 then None else Some(layers[l][Nibble(id, d - 1)])
  }

  /** The string that `id` leads to, 0 if none. */
  ghost function Find(layers: seq<seq<nat>>, paths: seq<seq<nat>>, id: nat): nat
    requires Tree(layers, paths)
  {
    match Reached(layers, paths, id, 7) case None => 0 case Some(l) => layers[l][Nibble(id, 7)]
  }

  lemma {:induction false} NotReachedLater(layers: seq<seq<nat>>, paths: seq<seq<nat>>, id: nat, d: nat, e: nat)
    requires Tree(layers, paths) && d <= e <= 7 && Reached(layers, paths, id, d).None?
    ensures Reached(layers, paths, id, e).None?
    decreases e
  {
    if d < e {
      NotReachedLater(layers, paths, id, d, e - 1);
    }
  }

  // ----- a fresh layer -----------------------------------------------------------------------

  /** What `malloc` yields for a layer. */
  function ZeroLayer(): (layer: seq<nat>)
    ensures |layer| == 16 && forall i | 0 <= i < 16 :: layer[i] == 0
  {
    seq(16, _ => 0)
  }

  function SetWord(layer: seq<nat>, n: nat, value: nat): seq<nat>
    requires n < |layer|
  {
    layer[n := value]
  }

  function Grown(layers: seq<seq<nat>>, l: nat, n: nat): seq<seq<nat>>
    requires l < |layers| && n < |layers[l]|
  {
    layers[l := SetWord(layers[l], n, |layers|)] + [ZeroLayer()]
  }

  lemma GrownTree(layers: seq<seq<nat>>, paths: seq<seq<nat>>, l: nat, n: nat)
    requires Tree(layers, paths) && l < |layers| && n < 16 && |paths[l]| < 7 && layers[l][n] == 0
    ensures Tree(Grown(layers, l, n), paths + [paths[l] + [n]])
  {
  }

  /** What a fresh zeroed layer in place of the null word `n` of layer `l` does to words. */
  lemma GrownWords(layers: seq<seq<nat>>, l: nat, n: nat, at: nat, m: nat)
    requires l < |layers| && n < 16 && |layers[l]| == 16 && at < |layers| && |layers[at]| == 16 && m < 16
    ensures Grown(layers, l, n)[at][m] == if at == l && m == n then |layers| else layers[at][m]
    ensures |Grown(layers, l, n)| == |layers| + 1 && Grown(layers, l, n)[|layers|][m] == 0
  {
  }

  /** A fresh zeroed layer in place of a null word bends no path that led anywhere, and leads nowhere. */
  lemma {:induction false} ReachedAfterGrow(layers: seq<seq<nat>>, paths: seq<seq<nat>>, l: nat, n: nat, id: nat,
                                            d: nat)
    requires Tree(layers, paths) && l < |layers| && n < 16 && |paths[l]| < 7 && layers[l][n] == 0 && d <= 7
    requires Tree(Grown(layers, l, n), paths + [paths[l] + [n]])
    ensures var before := Reached(layers, paths, id, d);
            var after := Reached(Grown(layers, l, n), paths + [paths[l] + [n]], id, d);
            if before.Some? then after == before else after.None? || after == Some(|layers|)
  {
    if d > 0 {
      ReachedAfterGrow(layers, paths, l, n, id, d - 1);
      var before := Reached(layers, paths, id, d - 1);
      if before.Some? {
        NextAfterGrow(layers, l, n, before.value, Nibble(id, d - 1));
      } else {
        FreshLayerIsNull(layers, l, n, Nibble(id, d - 1));
      }
    }
  }

  /** The words of a layer after the growth. */
  lemma NextAfterGrow(layers: seq<seq<nat>>, l: nat, n: nat, at: nat, m: nat)
    requires l < |layers| && n < 16 && |layers[l]| == 16 && layers[l][n] == 0
    requires at < |layers| && |layers[at]| == 16 && m < 16
    ensures layers[at][m] != 0 ==> Grown(layers, l, n)[at][m] == layers[at][m]
    ensures layers[at][m] == 0 ==> Grown(layers, l, n)[at][m] in {0, |layers|}
  {
    GrownWords(layers, l, n, at, m);
  }

  lemma FreshLayerIsNull(layers: seq<seq<nat>>, l: nat, n: nat, m: nat)
    requires l < |layers| && n < 16 && |layers[l]| == 16 && m < 16
    ensures |Grown(layers, l, n)| == |layers| + 1 && Grown(layers, l, n)[|layers|][m] == 0
  {
    GrownWords(layers, l, n, l, m);
  }

  lemma FindAfterGrow(layers: seq<seq<nat>>, paths: seq<seq<nat>>, l: nat, n: nat, id: nat)
    requires Tree(layers, paths) && l < |layers| && n < 16 && |paths[l]| < 7 && layers[l][n] == 0
    ensures Tree(Grown(layers, l, n), paths + [paths[l] + [n]])
    ensures Find(Grown(layers, l, n), paths + [paths[l] + [n]], id) == Find(layers, paths, id)
  {
    GrownTree(layers, paths, l, n);
    ReachedAfterGrow(layers, paths, l, n, id, 7);
  }

  // ----- a word of the last level ------------------------------------------------------------

  function Written(layers: seq<seq<nat>>, l: nat, n: nat, value: nat): seq<seq<nat>>
    requires l < |layers| && n < |layers[l]|
  {
    layers[l := SetWord(layers[l], n, value)]
  }

  lemma {:induction false} ReachedAfterWrite(layers: seq<seq<nat>>, paths: seq<seq<nat>>, l: nat, n: nat, value: nat,
                                             id: nat, d: nat)
    requires Tree(layers, paths) && l < |layers| && n < 16 && |paths[l]| == 7 && d <= 7
    requires Tree(Written(layers, l, n, value), paths)
    ensures Reached(Written(layers, l, n, value), paths, id, d) == Reached(layers, paths, id, d)
  {
    if d > 0 {
      ReachedAfterWrite(layers, paths, l, n, value, id, d - 1);
    }
  }

  lemma WrittenTree(layers: seq<seq<nat>>, paths: seq<seq<nat>>, l: nat, n: nat, value: nat)
    requires Tree(layers, paths) && l < |layers| && n < 16 && |paths[l]| == 7
    ensures Tree(Written(layers, l, n, value), paths)
  {
  }

  /** Writing the word that `id` leads to changes the string of `id` and of no other id. */
  lemma FindAfterWrite(layers: seq<seq<nat>>, paths: seq<seq<nat>>, id: nat, l: nat, value: nat, other: nat)
    requires Tree(layers, paths) && id < WORD && other < WORD && Reached(layers, paths, id, 7) == Some(l)
    ensures Tree(Written(layers, l, Nibble(id, 7), value), paths)
    ensures Find(Written(layers, l, Nibble(id, 7), value), paths, other)
         == if other == id then value else Find(layers, paths, other)
  {
    WrittenTree(layers, paths, l, Nibble(id, 7), value);
    ReachedAfterWrite(layers, paths, l, Nibble(id, 7), value, other, 7);
    if Reached(layers, paths, other, 7) == Some(l) && Nibble(other, 7) == Nibble(id, 7) {
      NibblesDetermineId(id, other);
    }
  }

  // ----- in place ----------------------------------------------------------------------------

  class Trie {
    var layers: seq<seq<nat>>
    ghost var paths: seq<seq<nat>>

    /** The strings by id. */
    ghost var strings: map<nat, nat>

    ghost predicate Valid()
      reads this
    {
      && Tree(layers, paths) && (forall id: nat | id < WORD :: Holds(id))
      && (forall id: nat | id in strings :: strings[id] != 0)
    }

    /** The trie agrees with the map at `id`. */
    ghost predicate Holds(id: nat)
      requires Tree(layers, paths)
      reads this
    {
      Find(layers, paths, id) == if id in strings then strings[id] else 0
    }

    constructor ()
      ensures Valid() && strings == map[]
    {
      layers, paths, strings := [ZeroLayer()], [[]], map[];
      new;
      forall id: nat | id < WORD ensures Holds(id) {
        NotReachedLater(layers, paths, id, 1, 7);
      }
    }

    /** The walk of `retrieveString` and `discardString`: the last-level layer, 0 if the path ends before. */
    method Walk(stringId: nat) returns (layer: nat)
      requires Tree(layers, paths)
      ensures Reached(layers, paths, stringId, 7) == if layer == 0 then None else Some(layer)
    {
      layer := 0;
      var d := 0;
      while d < 7
        invariant d <= 7 && Reached(layers, paths, stringId, d) == Some(layer)
      {
        var nextLayer := layers[layer][Shift(stringId, d) % 16];
        if nextLayer == 0 {
          NotReachedLater(layers, paths, stringId, d + 1, 7);
          return 0;
        }
        layer := nextLayer;
        d := d + 1;
      }
    }

    /** `retrieveString`: the string inserted last under this id and not discarded since, or null. */
    method RetrieveString(stringId: nat) returns (result: nat)
      requires Valid() && stringId < WORD
      ensures result == if stringId in strings then strings[stringId] else 0
    {
      assert Holds(stringId);
      TopNibble(stringId);
      var layer := Walk(stringId);
      result := if layer == 0 then 0 else layers[layer][Shift(stringId, 7)];
    }

    /** One level of `insertString`. */
    method NextLayer(hash: nat, layer: nat, d: nat) returns (nextLayer: nat)
      requires Valid() && d < 7 && Reached(layers, paths, hash, d) == Some(layer)
      modifies `layers, `paths
      ensures Valid() && Reached(layers, paths, hash, d + 1) == Some(nextLayer)
    {
      var n := Shift(hash, d) % 16;
      nextLayer := layers[layer][n];
      if nextLayer == 0 {
        nextLayer := |layers|;
        forall id: nat | id < WORD
          ensures Tree(Grown(layers, layer, n), paths + [paths[layer] + [n]])
               && Find(Grown(layers, layer, n), paths + [paths[layer] + [n]], id) == Find(layers, paths, id)
        {
          FindAfterGrow(layers, paths, layer, n, id);
        }
        FindAfterGrow(layers, paths, layer, n, hash);
        ReachedAfterGrow(layers, paths, layer, n, hash, d);
        layers, paths := Grown(layers, layer, n), paths + [paths[layer] + [n]];
        assert forall id: nat | id < WORD :: old(Holds(id)) ==> Holds(id);
      }
    }

    /** Writes the word that `id` leads to. */
    method WriteLeaf(id: nat, layer: nat, value: nat)
      requires Valid() && id < WORD && Reached(layers, paths, id, 7) == Some(layer)
      modifies `layers, `strings
      ensures Valid() && strings == if value == 0 then old(strings) - {id} else old(strings)[id := value]
    {
      TopNibble(id);
      forall other: nat | other < WORD
        ensures Tree(Written(layers, layer, Nibble(id, 7), value), paths)
             && Find(Written(layers, layer, Nibble(id, 7), value), paths, other)
                == if other == id then value else Find(layers, paths, other)
      {
        FindAfterWrite(layers, paths, id, layer, value, other);
      }
      FindAfterWrite(layers, paths, id, layer, value, id);
      layers := layers[layer := SetWord(layers[layer], Shift(id, 7), value)];
      strings := if value == 0 then strings - {id} else strings[id := value];
      assert forall other: nat | other < WORD :: old(Holds(other)) ==> Holds(other);
    }

    /** `insertString`; `address` is where the string is. */
    method InsertString(text: seq<int>, address: nat) returns (hash: nat)
      requires Valid() && address != 0
      modifies this
      ensures Valid() && hash == Hash(text) && strings == old(strings)[hash := address]
    {
      hash := HashString(text);
      var layer := 0;
      var d := 0;
      while d < 7
        invariant Valid() && strings == old(strings)
        invariant d <= 7 && Reached(layers, paths, hash, d) == Some(layer)
      {
        layer := NextLayer(hash, layer, d);
        d := d + 1;
      }
      WriteLeaf(hash, layer, address);
    }

    /** `discardString`. */
    method DiscardString(stringId: nat)
      requires Valid() && stringId < WORD
      modifies `layers, `strings
      ensures Valid() && strings == old(strings) - {stringId}
    {
      assert Holds(stringId);
      var layer := Walk(stringId);
      if layer != 0 {
        WriteLeaf(stringId, layer, 0);
      } else {
        assert strings - {stringId} == strings;
      }
    }
  }
}
