/**
 * Two lists of src/amvp_capabilities.c that are searched by modulus and extended at the end: the
 * DSA attributes, whose hash algorithms are or-ed together, and the RSA key generation moduli,
 * whose names are collected. What both have in common is stated once, for any kind of value.
 */
module KeyedLists {
  datatype Node<V> = Node(modulo: int, value: V)

  /** One call that adds something to the value of a modulus. */
  datatype Call<A> = Call(modulo: int, arg: A)

  ghost predicate Distinct<V>(nodes: seq<Node<V>>) {
    forall i, j :: 0 <= i < j < |nodes| ==> nodes[i].modulo != nodes[j].modulo
  }

  function Find<V>(nodes: seq<Node<V>>, modulo: int): (k: nat)
    ensures k <= |nodes| && (k < |nodes| ==> nodes[k].modulo == modulo)
    ensures forall m :: 0 <= m < k ==> nodes[m].modulo != modulo
  {
    if nodes == [] || nodes[0].modulo == modulo then 0 else Find(nodes[1..], modulo) + 1
  }

  /** The list after one call: find or append, then add. */
  function Put<V, A>(nodes: seq<Node<V>>, c: Call<A>, empty: V, add: (V, A) -> V): (r: seq<Node<V>>)
    ensures Distinct(nodes) ==> Distinct(r)
  {
    var k := Find(nodes, c.modulo);
    if k < |nodes| then nodes[k := Node(c.modulo, add(nodes[k].value, c.arg))]
    else nodes + [Node(c.modulo, add(empty, c.arg))]
  }

  function Replay<V, A>(calls: seq<Call<A>>, empty: V, add: (V, A) -> V): (r: seq<Node<V>>)
    ensures Distinct(r)
  {
    if calls == [] then [] else Put(Replay(calls[..|calls| - 1], empty, add), calls[|calls| - 1], empty, add)
  }

  lemma ReplayNext<V, A>(calls: seq<Call<A>>, c: Call<A>, empty: V, add: (V, A) -> V)
    ensures Replay(calls + [c], empty, add) == Put(Replay(calls, empty, add), c, empty, add)
  {
    assert (calls + [c])[..|calls|] == calls;
  }

  // ---- the list refines a map ----------------------------------------------

  /** The value of a modulus, empty when it is not on the list. */
  function ValueOf<V>(nodes: seq<Node<V>>, modulo: int, empty: V): V {
    var k := Find(nodes, modulo);
    if k < |nodes| then nodes[k].value else empty
  }

  /** What the calls gave to a modulus, in order. */
  function Given<A>(calls: seq<Call<A>>, modulo: int): seq<A> {
    if calls == [] then []
    else
      var c := calls[|calls| - 1];
      Given(calls[..|calls| - 1], modulo) + if c.modulo == modulo then [c.arg] else []
  }

  function Fold<V, A>(args: seq<A>, empty: V, add: (V, A) -> V): V {
    if args == [] then empty else add(Fold(args[..|args| - 1], empty, add), args[|args| - 1])
  }

  /** The moduli in the order in which they were first used. */
  function FirstUsed<A>(calls: seq<Call<A>>): seq<int> {
    if calls == [] then []
    else
      var before := FirstUsed(calls[..|calls| - 1]);
      var m := calls[|calls| - 1].modulo;
      if m in before then before else before + [m]
  }

  function Moduli<V>(nodes: seq<Node<V>>): (r: seq<int>)
    ensures |r| == |nodes| && forall k :: 0 <= k < |nodes| ==> r[k] == nodes[k].modulo
  {
    seq(|nodes|, k requires 0 <= k < |nodes| => nodes[k].modulo)
  }

  lemma FoundOnly<V>(nodes: seq<Node<V>>, k: nat)
    requires k < |nodes| && Distinct(nodes)
    ensures Find(nodes, nodes[k].modulo) == k
  {
  }

  lemma ValueAfterPut<V, A>(nodes: seq<Node<V>>, c: Call<A>, empty: V, add: (V, A) -> V, modulo: int)
    requires Distinct(nodes)
    ensures var old' := ValueOf(nodes, modulo, empty);
      ValueOf(Put(nodes, c, empty, add), modulo, empty) == if c.modulo == modulo then add(old', c.arg) else old'
  {
    var k, after := Find(nodes, c.modulo), Put(nodes, c, empty, add);
    var m := Find(nodes, modulo);
    if m < |nodes| {
      FoundOnly(after, m);
    } else if modulo == c.modulo {
      FoundOnly(after, k);
    }
  }

  lemma ModuliAfterPut<V, A>(nodes: seq<Node<V>>, c: Call<A>, empty: V, add: (V, A) -> V)
    ensures Moduli(Put(nodes, c, empty, add)) == Moduli(nodes) + if c.modulo in Moduli(nodes) then [] else [c.modulo]
  {
    var k := Find(nodes, c.modulo);
    assert k < |nodes| ==> Moduli(nodes)[k] == c.modulo;
  }

  /** After any calls, the moduli are distinct and in the order of their first use. */
  lemma {:induction false} ModuliInOrder<V, A>(calls: seq<Call<A>>, empty: V, add: (V, A) -> V)
    ensures Moduli(Replay(calls, empty, add)) == FirstUsed(calls) && Distinct(Replay(calls, empty, add))
  {
    if calls != [] {
      var n := |calls| - 1;
      ModuliInOrder(calls[..n], empty, add);
      ModuliAfterPut(Replay(calls[..n], empty, add), calls[n], empty, add);
    }
  }

  /** After any calls, each modulus holds all that was given to it, in the order of the calls. */
  lemma {:induction false} ReplayIsMap<V, A>(calls: seq<Call<A>>, empty: V, add: (V, A) -> V, modulo: int)
    ensures ValueOf(Replay(calls, empty, add), modulo, empty) == Fold(Given(calls, modulo), empty, add)
  {
    if calls != [] {
      var before, c := calls[..|calls| - 1], calls[|calls| - 1];
      ReplayIsMap(before, empty, add, modulo);
      ValueAfterPut(Replay(before, empty, add), c, empty, add, modulo);
      var given := Given(before, modulo);
      assert Given(calls, modulo) == given + if c.modulo == modulo then [c.arg] else [];
      if c.modulo == modulo {
        FoldNext(given, c.arg, empty, add);
      } else {
        assert given + [] == given;
      }
    }
  }

  lemma FoldNext<V, A>(args: seq<A>, a: A, empty: V, add: (V, A) -> V)
    ensures Fold(args + [a], empty, add) == add(Fold(args, empty, add), a)
  {
    assert (args + [a])[..|args|] == args;
  }

  // ---- the DSA attributes --------------------------------------------------

  /** The single flags of AMVP_HASH_ALG. */
  datatype Hash = Sha1 | Sha224 | Sha256 | Sha384 | Sha512 | Sha512_224 | Sha512_256
    | Sha3_224 | Sha3_256 | Sha3_384 | Sha3_512

  /** A bit mask, as the set of its flags: union is the bitwise or. */
  type Mask = set<Hash>

  function Or(a: Mask, b: Mask): Mask { a + b }

  /** Some call gave the flag to the modulus. */
  ghost predicate Gave(calls: seq<Call<Mask>>, modulo: int, h: Hash) {
    exists c :: c in calls && c.modulo == modulo && h in c.arg
  }

  /** A mask holds a flag if and only if some call gave it to that modulus. */
  lemma {:induction false} MasksAreMap(calls: seq<Call<Mask>>, modulo: int, h: Hash)
    ensures h in ValueOf(Replay(calls, {}, Or), modulo, {}) <==> Gave(calls, modulo, h)
  {
    if calls != [] {
      var before, last := calls[..|calls| - 1], calls[|calls| - 1];
      MasksAreMap(before, modulo, h);
      ValueAfterPut(Replay(before, {}, Or), last, {}, Or, modulo);
      assert forall c :: c in calls <==> c in before || c == last;
    }
  }

  /** The order of the calls does not change any mask. */
  lemma OrderIrrelevant(a: seq<Call<Mask>>, b: seq<Call<Mask>>, modulo: int)
    requires multiset(a) == multiset(b)
    ensures ValueOf(Replay(a, {}, Or), modulo, {}) == ValueOf(Replay(b, {}, Or), modulo, {})
  {
    assert forall c :: (c in a <==> c in multiset(a)) && (c in b <==> c in multiset(b));
    forall h
      ensures h in ValueOf(Replay(a, {}, Or), modulo, {}) <==> h in ValueOf(Replay(b, {}, Or), modulo, {})
    {
      MasksAreMap(a, modulo, h);
      MasksAreMap(b, modulo, h);
    }
  }

  /** The hash algorithms that amvp_build_dsa_hashalgs looks for, in its order. */
  const NAMED: seq<(Hash, string)> := [
    (Sha1, "SHA-1"), (Sha224, "SHA2-224"), (Sha256, "SHA2-256"), (Sha384, "SHA2-384"),
    (Sha512, "SHA2-512"), (Sha512_224, "SHA2-512/224"), (Sha512_256, "SHA2-512/256")]

  const SHA3: Mask := {Sha3_224, Sha3_256, Sha3_384, Sha3_512}

  datatype Names = Names(list: seq<string>) | NoNames

  function NamesUpTo(sha: Mask, n: nat): seq<string>
    requires n <= |NAMED|
  {
    if n == 0 then []
    else NamesUpTo(sha, n - 1) + if NAMED[n - 1].0 in sha then [NAMED[n - 1].1] else []
  }

  /**
   * amvp_build_dsa_hashalgs: the names of the SHA-1 and SHA-2 members of the mask, each once; a mask
   * without any of them is an error.
   */
  method BuildHashAlgs(sha: Mask) returns (r: Names)
    ensures r.NoNames? <==> sha <= SHA3
    ensures r.Names? ==> forall name :: name in r.list <==>
      exists k :: 0 <= k < |NAMED| && NAMED[k].1 == name && NAMED[k].0 in sha
    ensures r.Names? ==> forall i, j :: 0 <= i < j < |r.list| ==> r.list[i] != r.list[j]
  {
    var list: seq<string> := [];
    if Sha1 in sha { list := list + ["SHA-1"]; }
    assert list == NamesUpTo(sha, 1);
    if Sha224 in sha { list := list + ["SHA2-224"]; }
    assert list == NamesUpTo(sha, 2);
    if Sha256 in sha { list := list + ["SHA2-256"]; }
    assert list == NamesUpTo(sha, 3);
    if Sha384 in sha { list := list + ["SHA2-384"]; }
    assert list == NamesUpTo(sha, 4);
    if Sha512 in sha { list := list + ["SHA2-512"]; }
    assert list == NamesUpTo(sha, 5);
    if Sha512_224 in sha { list := list + ["SHA2-512/224"]; }
    assert list == NamesUpTo(sha, 6);
    if Sha512_256 in sha { list := list + ["SHA2-512/256"]; }
    assert list == NamesUpTo(sha, 7);
    NamesAreMembers(sha, 7);
    EmptyNames(sha);
    return if |list| == 0 then NoNames else Names(list);
  }

  /** The names as they are written, one by one. */
  lemma NamesAsWritten(sha: Mask)
    ensures var list := NamesUpTo(sha, 7);
      && ("SHA-1" in list <==> Sha1 in sha) && ("SHA2-224" in list <==> Sha224 in sha)
      && ("SHA2-256" in list <==> Sha256 in sha) && ("SHA2-384" in list <==> Sha384 in sha)
      && ("SHA2-512" in list <==> Sha512 in sha) && ("SHA2-512/224" in list <==> Sha512_224 in sha)
      && ("SHA2-512/256" in list <==> Sha512_256 in sha)
  {
    NamesAreMembers(sha, 7);
    forall k: nat, m: nat | k < 7 && m < 7 && k != m
      ensures NAMED[k].1 != NAMED[m].1
    {
      if k < m {
        NamesDiffer(k, m);
      } else {
        NamesDiffer(m, k);
      }
    }
    assert forall k: nat :: k < 7 ==> (NAMED[k].1 in NamesUpTo(sha, 7) <==> NAMED[k].0 in sha);
    assert NAMED[0] == (Sha1, "SHA-1") && NAMED[1] == (Sha224, "SHA2-224") && NAMED[2] == (Sha256, "SHA2-256");
    assert NAMED[3] == (Sha384, "SHA2-384") && NAMED[4] == (Sha512, "SHA2-512");
    assert NAMED[5] == (Sha512_224, "SHA2-512/224") && NAMED[6] == (Sha512_256, "SHA2-512/256");
  }

  lemma EmptyNames(sha: Mask)
    ensures NamesUpTo(sha, 7) == [] <==> sha <= SHA3
  {
    NamesAreMembers(sha, 7);
    var names := NamesUpTo(sha, 7);
    assert NAMED[0].0 == Sha1 && NAMED[1].0 == Sha224 && NAMED[2].0 == Sha256 && NAMED[3].0 == Sha384
        && NAMED[4].0 == Sha512 && NAMED[5].0 == Sha512_224 && NAMED[6].0 == Sha512_256;
    if names == [] {
      forall k | 0 <= k < 7
        ensures NAMED[k].0 !in sha
      {
        assert NAMED[k].1 !in names;
      }
      forall h | h in sha
        ensures h in SHA3
      {
        assert h != NAMED[0].0 && h != NAMED[1].0 && h != NAMED[2].0 && h != NAMED[3].0
            && h != NAMED[4].0 && h != NAMED[5].0 && h != NAMED[6].0;
      }
    } else {
      var name := names[0];
      assert name in names;
      var k :| 0 <= k < 7 && NAMED[k].1 == name && NAMED[k].0 in sha;
      assert NAMED[k].0 !in SHA3;
    }
  }

  lemma NamesDiffer(i: nat, j: nat)
    requires i < j < 7
    ensures NAMED[i].1 != NAMED[j].1
  {
    var a, b := NAMED[i].1, NAMED[j].1;
    assert |a| != |b| || a[5] != b[5] || a[6] != b[6] || a[9] != b[9] || a[10] != b[10];
  }

  /** The names are exactly those of members of the mask, without repetition. */
  lemma {:induction false} NamesAreMembers(sha: Mask, n: nat)
    requires n <= |NAMED|
    ensures forall name :: name in NamesUpTo(sha, n) <==>
      exists k :: 0 <= k < n && NAMED[k].1 == name && NAMED[k].0 in sha
    ensures forall i, j :: 0 <= i < j < |NamesUpTo(sha, n)| ==> NamesUpTo(sha, n)[i] != NamesUpTo(sha, n)[j]
  {
    if n > 0 {
      NamesAreMembers(sha, n - 1);
      var front := NamesUpTo(sha, n - 1);
      forall k: nat | k < n - 1
        ensures NAMED[k].1 != NAMED[n - 1].1
      {
        NamesDiffer(k, n - 1);
      }
      assert NAMED[n - 1].1 !in front;
    }
  }

  class DsaMode {
    var attrs: seq<Node<Mask>>
    ghost var calls: seq<Call<Mask>>

    constructor ()
      ensures Valid() && attrs == [] && calls == []
    {
      attrs, calls := [], [];
    }

    ghost predicate Valid()
      reads this
    {
      attrs == Replay(calls, {}, Or)
    }

    /** amvp_dsa_set_modulo */
    method SetModulo(param: int, value: Mask)
      requires Valid()
      modifies this
      ensures Valid() && calls == old(calls) + [Call(param, value)]
      ensures attrs == Put(old(attrs), Call(param, value), {}, Or)
    {
      ReplayNext(calls, Call(param, value), {}, Or);
      calls := calls + [Call(param, value)];
      if attrs == [] {
        attrs := [Node(param, {})];
      }
      var k := 0;
      while true
        invariant k < |attrs| && forall m :: 0 <= m < k ==> attrs[m].modulo != param
        invariant attrs == if old(attrs) == [] then [Node(param, {})] else old(attrs)
        decreases |attrs| - k
      {
        if attrs[k].modulo == param {
          attrs := attrs[k := Node(param, Or(attrs[k].value, value))];
          return;
        }
        if k + 1 == |attrs| {
          break;
        }
        k := k + 1;
      }
      assert Or({}, value) == value;
      attrs := attrs + [Node(param, value)];
    }
  }

  // ---- RSA key generation --------------------------------------------------

  /** The names set for a modulus. */
  datatype Caps = Caps(hashAlgs: seq<string>, primeTests: seq<string>)

  const NO_CAPS := Caps([], [])

  /** What a call sets: a name, as looked up for the value, or something the library does not know. */
  datatype Param = PrimeHash(name: string) | PrimeTest(name: string) | Unknown

  function Named(caps: Caps, param: Param): Caps {
    match param
    case PrimeHash(name) => caps.(hashAlgs := caps.hashAlgs + [name])
    case PrimeTest(name) => caps.(primeTests := caps.primeTests + [name])
    case Unknown => caps
  }

  /** The names of the parameters of one kind, in order. */
  function NamesOf(params: seq<Param>, kind: Param -> bool): seq<string> {
    if params == [] then []
    else
      var p := params[|params| - 1];
      NamesOf(params[..|params| - 1], kind) + if !p.Unknown? && kind(p) then [p.name] else []
  }

  function IsHash(): Param -> bool { (p: Param) => p.PrimeHash? }
  function IsTest(): Param -> bool { (p: Param) => p.PrimeTest? }

  lemma {:induction false} FoldNames(params: seq<Param>)
    ensures Fold(params, NO_CAPS, Named) == Caps(NamesOf(params, IsHash()), NamesOf(params, IsTest()))
  {
    if params != [] {
      FoldNames(params[..|params| - 1]);
    }
  }

  /** After any calls, every modulus has exactly the names given to it, in the order of the calls. */
  lemma PrimesAreMap(calls: seq<Call<Param>>, modulo: int)
    ensures var params := Given(calls, modulo);
      ValueOf(Replay(calls, NO_CAPS, Named), modulo, NO_CAPS)
        == Caps(NamesOf(params, IsHash()), NamesOf(params, IsTest()))
  {
    ReplayIsMap(calls, NO_CAPS, Named, modulo);
    FoldNames(Given(calls, modulo));
  }

  class RsaKeygen {
    var modes: seq<Node<Caps>>
    ghost var calls: seq<Call<Param>>

    constructor ()
      ensures Valid() && modes == [] && calls == []
    {
      modes, calls := [], [];
    }

    ghost predicate Valid()
      reads this
    {
      modes == Replay(calls, NO_CAPS, Named)
    }

    /** The search of amvp_cap_rsa_keygen_set_primes: the node of a modulus, appended when there is none. */
    method FindOrAppend(mod: nat) returns (k: nat)
      modifies this`modes
      ensures k == Find(old(modes), mod)
      ensures modes == if k < |old(modes)| then old(modes) else old(modes) + [Node(mod, NO_CAPS)]
    {
      if modes == [] {
        modes := [Node(mod, NO_CAPS)];
        return 0;
      }
      k := 0;
      var found := false;
      while !found
        invariant k < |modes| && (found ==> modes[k].modulo == mod)
        invariant forall m :: 0 <= m < k && m < |old(modes)| ==> old(modes)[m].modulo != mod
        invariant if k < |old(modes)| then modes == old(modes)
          else found && k == |old(modes)| && modes == old(modes) + [Node(mod, NO_CAPS)]
        decreases !found, |modes| - k
      {
        if modes[k].modulo != mod {
          if k + 1 == |modes| {
            modes := modes + [Node(mod, NO_CAPS)];
            k, found := k + 1, true;
          } else {
            k := k + 1;
          }
        } else {
          found := true;
        }
      }
    }

    /** amvp_cap_rsa_keygen_set_primes: a node is appended even when the parameter is then refused. */
    method SetPrimes(mod: nat, param: Param) returns (ok: bool)
      requires Valid()
      modifies this
      ensures Valid() && calls == old(calls) + [Call(mod, param)]
      ensures modes == Put(old(modes), Call(mod, param), NO_CAPS, Named)
      ensures ok == !param.Unknown?
    {
      ReplayNext(calls, Call(mod, param), NO_CAPS, Named);
      calls := calls + [Call(mod, param)];
      var k := FindOrAppend(mod);
      modes := modes[k := Node(mod, Named(modes[k].value, param))];
      return !param.Unknown?;
    }
  }
}
