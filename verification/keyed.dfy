/** Arrays of records addressed by a string id, and the two shapes every
    handler of the calculator is built from: dropping the records with a
    given id (`xs.filter(x => x.id !== id)`) and rewriting the records with a
    given id (`xs.map(x => x.id === id ? f(x) : x)`). `key` reads the id. */
module Keyed {

  predicate HasKey<T>(s: seq<T>, key: T -> string, id: string) {
    exists i :: 0 <= i < |s| && key(s[i]) == id
  }

  /** No two records share an id. */
  predicate UniqueKeys<T>(s: seq<T>, key: T -> string) {
    forall i, j :: 0 <= i < j < |s| ==> key(s[i]) != key(s[j])
  }

  lemma HasKeyCons<T>(s: seq<T>, key: T -> string, id: string)
    requires s != []
    ensures HasKey(s, key, id) <==> key(s[0]) == id || HasKey(s[1..], key, id)
  {
    if HasKey(s, key, id) && key(s[0]) != id {
      var i :| 0 <= i < |s| && key(s[i]) == id;
      assert key(s[1..][i - 1]) == id;
    }
    if HasKey(s[1..], key, id) {
      var i :| 0 <= i < |s[1..]| && key(s[1..][i]) == id;
      assert key(s[i + 1]) == id;
    }
  }

  /** The records whose id is not `id`, in their original order. */
  function RemoveKey<T>(s: seq<T>, key: T -> string, id: string): (r: seq<T>)
    ensures |r| <= |s|
    ensures !HasKey(r, key, id)
    ensures HasKey(s, key, id) <==> |r| < |s|
    ensures !HasKey(s, key, id) ==> r == s
    decreases |s|
  {
    if s == [] then []
    else
      HasKeyCons(s, key, id);
      var rest := RemoveKey(s[1..], key, id);
      if key(s[0]) == id then rest
      else
        HasKeyCons([s[0]] + rest, key, id);
        assert ([s[0]] + rest)[1..] == rest;
        assert s == [s[0]] + s[1..];
        [s[0]] + rest
  }

  /** A record survives the filter exactly when it was there and its id is
      not `id`. */
  lemma {:induction false} RemoveKeyMember<T>(s: seq<T>, key: T -> string, id: string, x: T)
    ensures x in RemoveKey(s, key, id) <==> x in s && key(x) != id
    decreases |s|
  {
    if s != [] {
      RemoveKeyMember(s[1..], key, id, x);
      assert x in s <==> x == s[0] || x in s[1..] by {
        assert s == [s[0]] + s[1..];
      }
    }
  }

  /** Filtering distributes over concatenation: the survivors keep their order. */
  lemma {:induction false} RemoveKeyAppend<T>(a: seq<T>, b: seq<T>, key: T -> string, id: string)
    ensures RemoveKey(a + b, key, id) == RemoveKey(a, key, id) + RemoveKey(b, key, id)
    decreases |a|
  {
    if a == [] {
      assert a + b == b;
    } else {
      assert (a + b)[0] == a[0];
      assert (a + b)[1..] == a[1..] + b;
      RemoveKeyAppend(a[1..], b, key, id);
    }
  }

  /** With unique ids, no other record carries the id of the record at `k`. */
  lemma UniqueKeyOnlyAt<T>(s: seq<T>, key: T -> string, k: nat)
    requires UniqueKeys(s, key) && k < |s|
    ensures !HasKey(s[..k], key, key(s[k])) && !HasKey(s[k + 1..], key, key(s[k]))
  {
    forall i | 0 <= i < k ensures key(s[..k][i]) != key(s[k]) {
      assert s[..k][i] == s[i];
    }
    var after := s[k + 1..];
    forall i | 0 <= i < |after| ensures key(after[i]) != key(s[k]) {
      assert after[i] == s[k + 1 + i];
    }
  }

  /** With unique ids, filtering out the id of the record at `k` removes
      exactly that record. */
  lemma RemoveKeyAt<T>(s: seq<T>, key: T -> string, k: nat)
    requires UniqueKeys(s, key) && k < |s|
    ensures RemoveKey(s, key, key(s[k])) == s[..k] + s[k + 1..]
  {
    UniqueKeyOnlyAt(s, key, k);
    SplitAt(s, k);
    RemoveOnlyKey(s[..k], s[k], s[k + 1..], key);
  }

  lemma SplitAt<T>(s: seq<T>, k: nat)
    requires k < |s|
    ensures s == s[..k] + ([s[k]] + s[k + 1..])
  {
  }

  /** A record whose id occurs nowhere else is the only one the filter on
      that id removes. */
  lemma RemoveOnlyKey<T>(before: seq<T>, x: T, after: seq<T>, key: T -> string)
    requires !HasKey(before, key, key(x)) && !HasKey(after, key, key(x))
    ensures RemoveKey(before + ([x] + after), key, key(x)) == before + after
  {
    RemoveKeyAppend(before, [x] + after, key, key(x));
    RemoveKeyDropsHead(x, after, key);
  }

  /** Filtering out the id of the first record, when no later record has it,
      leaves exactly the later records. */
  lemma RemoveKeyDropsHead<T>(x: T, t: seq<T>, key: T -> string)
    requires !HasKey(t, key, key(x))
    ensures RemoveKey([x] + t, key, key(x)) == t
  {
    assert ([x] + t)[1..] == t;
  }

  /** Appending a record whose id is new and then filtering that id out
      gives back the original array. */
  lemma RemoveKeyAppended<T>(s: seq<T>, x: T, key: T -> string)
    requires !HasKey(s, key, key(x))
    ensures RemoveKey(s + [x], key, key(x)) == s
  {
    RemoveKeyAppend(s, [x], key, key(x));
    assert [x][1..] == [];
  }

  /** Appending a record with a new id keeps the ids unique. */
  lemma AppendFreshUnique<T>(s: seq<T>, x: T, key: T -> string)
    requires !HasKey(s, key, key(x))
    ensures UniqueKeys(s, key) ==> UniqueKeys(s + [x], key)
  {
    var r := s + [x];
    if UniqueKeys(s, key) {
      forall i, j | 0 <= i < j < |r| ensures key(r[i]) != key(r[j]) {
        assert r[i] == s[i];
      }
    }
  }

  /** Dropping records keeps the ids unique. */
  lemma {:induction false} RemoveKeyUnique<T>(s: seq<T>, key: T -> string, id: string)
    ensures UniqueKeys(s, key) ==> UniqueKeys(RemoveKey(s, key, id), key)
    decreases |s|
  {
    if s != [] && UniqueKeys(s, key) {
      var rest := RemoveKey(s[1..], key, id);
      RemoveKeyUnique(s[1..], key, id);
      if key(s[0]) != id {
        var r := [s[0]] + rest;
        forall i, j | 0 <= i < j < |r| ensures key(r[i]) != key(r[j]) {
          if i == 0 {
            var y := r[j];
            assert y in rest;
            RemoveKeyMember(s[1..], key, id, y);
            assert y in s[1..] && key(y) != id;
            var m :| 0 <= m < |s[1..]| && s[1..][m] == y;
            assert s[m + 1] == y;
          } else {
            assert r[i] == rest[i - 1] && r[j] == rest[j - 1];
          }
        }
      }
    }
  }

  /** The records whose id is `id` rewritten by `f`, all others as they were,
      every record in its place. */
  function UpdateKey<T>(s: seq<T>, key: T -> string, id: string, f: T -> T): (r: seq<T>)
    ensures |r| == |s|
    ensures forall i :: 0 <= i < |s| && key(s[i]) != id ==> r[i] == s[i]
    ensures forall i :: 0 <= i < |s| && key(s[i]) == id ==> r[i] == f(s[i])
    ensures !HasKey(s, key, id) ==> r == s
  {
    seq(|s|, i requires 0 <= i < |s| => if key(s[i]) == id then f(s[i]) else s[i])
  }

  /** A rewrite that keeps every id keeps the ids in place, and so keeps
      them unique. */
  lemma UpdateKeyKeepsKeys<T>(s: seq<T>, key: T -> string, id: string, f: T -> T)
    requires forall x :: key(f(x)) == key(x)
    ensures forall i :: 0 <= i < |s| ==> key(UpdateKey(s, key, id, f)[i]) == key(s[i])
    ensures UniqueKeys(s, key) ==> UniqueKeys(UpdateKey(s, key, id, f), key)
  {
  }
}
