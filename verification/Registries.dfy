// Lists of clients under names: how the server knows its subscribers, watchers and waiters.

module Registries {
  import Seqs

  type Registry<K, C> = map<K, seq<C>>

  ghost predicate In<K, C>(r: Registry<K, C>, k: K, c: C) {
    k in r && c in r[k]
  }

  // std::remove followed by erase
  function Without<C(==)>(s: seq<C>, c: C): seq<C>
    decreases |s|
  {
    if s == [] then []
    else if s[0] == c then Without(s[1..], c)
    else [s[0]] + Without(s[1..], c)
  }

  lemma {:induction false} WithoutHas<C>(s: seq<C>, c: C, d: C)
    ensures d in Without(s, c) <==> d in s && d != c
    decreases |s|
  {
    if s != [] {
      WithoutHas(s[1..], c, d);
      assert d in s <==> d == s[0] || d in s[1..];
    }
  }

  // The others keep their order.
  lemma {:induction false} WithoutConcat<C>(s: seq<C>, t: seq<C>, c: C)
    ensures Without(s + t, c) == Without(s, c) + Without(t, c)
    ensures c !in s ==> Without(s, c) == s
    decreases |s|
  {
    if s == [] {
      assert s + t == t;
    } else {
      assert (s + t)[1..] == s[1..] + t;
      WithoutConcat(s[1..], t, c);
    }
  }

  lemma {:induction false} WithoutDistinct<C>(s: seq<C>, c: C)
    requires Seqs.Distinct(s)
    ensures Seqs.Distinct(Without(s, c))
    decreases |s|
  {
    if s != [] {
      WithoutDistinct(s[1..], c);
      WithoutHas(s[1..], c, s[0]);
    }
  }

  function Register<K, C>(r: Registry<K, C>, k: K, c: C): Registry<K, C> {
    r[k := (if k in r then r[k] else []) + [c]]
  }

  function RegisterAll<K, C>(r: Registry<K, C>, ks: seq<K>, c: C): Registry<K, C>
    decreases |ks|
  {
    if ks == [] then r else RegisterAll(Register(r, ks[0], c), ks[1..], c)
  }

  function Names<K(==)>(keys: seq<K>): set<K> {
    set k | k in keys
  }

  lemma NamesOneMore<K>(keys: seq<K>, k: K)
    ensures Names(keys + [k]) == Names(keys) + {k}
  {
    assert forall x :: x in keys + [k] <==> x in keys || x == k;
  }

  // Lists that become empty go with their name.
  function Deregister<K, C(==)>(r: Registry<K, C>, k: K, c: C): Registry<K, C> {
    if k !in r then r
    else if Without(r[k], c) == [] then r - {k}
    else r[k := Without(r[k], c)]
  }

  ghost function DeregisterAll<K, C>(r: Registry<K, C>, ks: set<K>, c: C): Registry<K, C> {
    map k | k in r && !(k in ks && Without(r[k], c) == []) :: if k in ks then Without(r[k], c) else r[k]
  }

  lemma DeregisterOneMore<K, C>(r: Registry<K, C>, ks: set<K>, k: K, c: C)
    ensures Deregister(DeregisterAll(r, ks, c), k, c) == DeregisterAll(r, ks + {k}, c)
  {
    if k in r && k in ks {
      WithoutTwice(r[k], c);
    }
    var a, b := Deregister(DeregisterAll(r, ks, c), k, c), DeregisterAll(r, ks + {k}, c);
    assert a.Keys == b.Keys;
    assert a == b;
  }

  lemma {:induction false} WithoutTwice<C>(s: seq<C>, c: C)
    ensures Without(Without(s, c), c) == Without(s, c)
    decreases |s|
  {
    if s != [] {
      WithoutTwice(s[1..], c);
      var rest := Without(s[1..], c);
      assert ([s[0]] + rest)[1..] == rest;
    }
  }

  lemma InRegister<K, C>(r: Registry<K, C>, k: K, c: C, k': K, c': C)
    ensures In(Register(r, k, c), k', c') <==> In(r, k', c') || (k' == k && c' == c)
  {
  }

  lemma {:induction false} InRegisterAll<K, C>(r: Registry<K, C>, ks: seq<K>, c: C, k': K, c': C)
    ensures In(RegisterAll(r, ks, c), k', c') <==> In(r, k', c') || (k' in ks && c' == c)
    decreases |ks|
  {
    hide In;
    hide Register;
    if ks != [] {
      InRegister(r, ks[0], c, k', c');
      InRegisterAll(Register(r, ks[0], c), ks[1..], c, k', c');
      assert k' in ks <==> k' == ks[0] || k' in ks[1..];
    }
  }

  lemma InDeregisterAll<K, C>(r: Registry<K, C>, ks: set<K>, c: C, k': K, c': C)
    ensures In(DeregisterAll(r, ks, c), k', c') <==> In(r, k', c') && !(k' in ks && c' == c)
  {
    if k' in r {
      WithoutHas(r[k'], c, c');
    }
  }

  // No name is kept without clients.
  ghost predicate NoneEmpty<K, C>(r: Registry<K, C>) {
    forall k :: k in r ==> r[k] != []
  }

  ghost predicate AllDistinct<K, C>(r: Registry<K, C>) {
    forall k :: k in r ==> Seqs.Distinct(r[k])
  }

  lemma RegisterKeeps<K, C>(r: Registry<K, C>, k: K, c: C)
    requires NoneEmpty(r)
    ensures NoneEmpty(Register(r, k, c))
    ensures AllDistinct(r) && !In(r, k, c) ==> AllDistinct(Register(r, k, c))
  {
  }

  lemma {:induction false} RegisterAllKeeps<K, C>(r: Registry<K, C>, ks: seq<K>, c: C)
    requires NoneEmpty(r)
    ensures NoneEmpty(RegisterAll(r, ks, c))
    decreases |ks|
  {
    if ks != [] {
      RegisterAllKeeps(Register(r, ks[0], c), ks[1..], c);
    }
  }

  lemma DeregisterAllKeeps<K, C>(r: Registry<K, C>, ks: set<K>, c: C)
    requires NoneEmpty(r)
    ensures NoneEmpty(DeregisterAll(r, ks, c))
    ensures AllDistinct(r) ==> AllDistinct(DeregisterAll(r, ks, c))
  {
    if AllDistinct(r) {
      forall k | k in DeregisterAll(r, ks, c) ensures Seqs.Distinct(DeregisterAll(r, ks, c)[k]) {
        WithoutDistinct(r[k], c);
      }
    }
  }
}
