/** The keyed-list pattern every store of the application repeats: append a
    record under a fresh identifier, shallow-merge an update into the record
    whose identifier matches, filter out the record with a given identifier.
    The identifier is read through a projection `id`, so the same operations
    serve job applications, experiences, education entries and skills. */
module Keyed {

  import opened Seqs

  /** Identifiers are the strings `crypto.randomUUID()` produces. */
  type Id = string

  function Ids<T>(s: seq<T>, id: T -> Id): (r: seq<Id>)
    ensures |r| == |s|
    ensures forall i :: 0 <= i < |s| ==> r[i] == id(s[i])
  {
    seq(|s|, i requires 0 <= i < |s| => id(s[i]))
  }

  ghost predicate UniqueIds<T>(s: seq<T>, id: T -> Id) {
    forall i, j :: 0 <= i < j < |s| ==> id(s[i]) != id(s[j])
  }

  /** Appending a record whose identifier is fresh keeps identifiers unique. */
  lemma AppendFreshKeepsUnique<T>(s: seq<T>, x: T, id: T -> Id)
    requires id(x) !in Ids(s, id)
    ensures UniqueIds(s, id) ==> UniqueIds(s + [x], id)
  {
    var r := s + [x];
    if UniqueIds(s, id) {
      forall i, j | 0 <= i < j < |r| ensures id(r[i]) != id(r[j]) {
        if j == |s| {
          assert id(r[i]) == Ids(s, id)[i];
        }
      }
    }
  }

  // ---------------------------------------------------------------------------
  // Update: `s.map(x => x.id === key ? f(x) : x)`

  function UpdateWhere<T>(s: seq<T>, id: T -> Id, key: Id, f: T -> T): (r: seq<T>)
    ensures |r| == |s|
    ensures forall i :: 0 <= i < |s| && id(s[i]) != key ==> r[i] == s[i]
    ensures forall i :: 0 <= i < |s| && id(s[i]) == key ==> r[i] == f(s[i])
    decreases |s|
  {
    if |s| == 0 then []
    else [if id(s[0]) == key then f(s[0]) else s[0]] + UpdateWhere(s[1..], id, key, f)
  }

  /** Updating an identifier that is not present changes nothing. */
  lemma UpdateAbsentIsNoop<T>(s: seq<T>, id: T -> Id, key: Id, f: T -> T)
    ensures key !in Ids(s, id) ==> UpdateWhere(s, id, key, f) == s
  {
    var r := UpdateWhere(s, id, key, f);
    if key !in Ids(s, id) {
      forall i | 0 <= i < |s| ensures r[i] == s[i] {
        assert Ids(s, id)[i] == id(s[i]);
      }
    }
  }

  /** An update that keeps each record's identifier keeps the list of identifiers. */
  lemma UpdateKeepsIds<T>(s: seq<T>, id: T -> Id, key: Id, f: T -> T)
    requires forall i :: 0 <= i < |s| ==> id(f(s[i])) == id(s[i])
    ensures Ids(UpdateWhere(s, id, key, f), id) == Ids(s, id)
  {
  }

  // ---------------------------------------------------------------------------
  // Delete: `s.filter(x => x.id !== key)`

  function Other<T>(id: T -> Id, key: Id): T -> bool {
    x => id(x) != key
  }

  function Remove<T>(s: seq<T>, id: T -> Id, key: Id): (r: seq<T>)
    ensures key !in Ids(r, id)
    ensures forall i :: 0 <= i < |r| ==> r[i] in s
    ensures forall i :: 0 <= i < |s| && id(s[i]) != key ==> s[i] in r
  {
    var r := Filter(s, Other(id, key));
    assert forall i :: 0 <= i < |r| ==> Ids(r, id)[i] != key by {
      forall i | 0 <= i < |r| ensures Ids(r, id)[i] != key {
        assert Other(id, key)(r[i]);
      }
    }
    r
  }

  /** The kept records stay in their relative order: removal distributes over concatenation. */
  lemma RemoveAppend<T>(a: seq<T>, b: seq<T>, id: T -> Id, key: Id)
    ensures Remove(a + b, id, key) == Remove(a, id, key) + Remove(b, id, key)
  {
    FilterAppend(a, b, Other(id, key));
  }

  /** Removing an identifier that is not present changes nothing. */
  lemma RemoveAbsentIsNoop<T>(s: seq<T>, id: T -> Id, key: Id)
    requires key !in Ids(s, id)
    ensures Remove(s, id, key) == s
  {
    forall i | 0 <= i < |s| ensures Other(id, key)(s[i]) {
      assert Ids(s, id)[i] == id(s[i]);
    }
    FilterKeepsAll(s, Other(id, key));
  }

  /** Deleting twice is deleting once. */
  lemma RemoveIdempotent<T>(s: seq<T>, id: T -> Id, key: Id)
    ensures Remove(Remove(s, id, key), id, key) == Remove(s, id, key)
  {
    RemoveAbsentIsNoop(Remove(s, id, key), id, key);
  }

  /** With unique identifiers, deleting a present identifier removes exactly one record. */
  lemma {:induction false} RemoveExactlyOne<T>(s: seq<T>, id: T -> Id, key: Id)
    requires UniqueIds(s, id)
    requires key in Ids(s, id)
    ensures |Remove(s, id, key)| == |s| - 1
    decreases |s|
  {
    assert s == [s[0]] + s[1..];
    RemoveAppend([s[0]], s[1..], id, key);
    if id(s[0]) == key {
      assert key !in Ids(s[1..], id) by {
        forall i | 0 <= i < |s[1..]| ensures Ids(s[1..], id)[i] != key {
          assert s[1..][i] == s[i + 1];
        }
      }
      RemoveAbsentIsNoop(s[1..], id, key);
    } else {
      assert key in Ids(s[1..], id) by {
        var k :| 0 <= k < |s| && Ids(s, id)[k] == key;
        assert k > 0 && Ids(s[1..], id)[k - 1] == key;
      }
      RemoveExactlyOne(s[1..], id, key);
    }
  }

  /** Deleting from a list with unique identifiers shrinks it by one exactly when the identifier is present. */
  lemma RemoveCount<T>(s: seq<T>, id: T -> Id, key: Id)
    ensures UniqueIds(s, id) && key in Ids(s, id) ==> |Remove(s, id, key)| == |s| - 1
  {
    if UniqueIds(s, id) && key in Ids(s, id) {
      RemoveExactlyOne(s, id, key);
    }
  }

  /** Deleting the record just appended under a fresh identifier restores the list. */
  lemma AppendThenRemove<T>(s: seq<T>, x: T, id: T -> Id)
    requires id(x) !in Ids(s, id)
    ensures Remove(s + [x], id, id(x)) == s
  {
    RemoveAppend(s, [x], id, id(x));
    RemoveAbsentIsNoop(s, id, id(x));
  }

  /** Deleting keeps identifiers unique. */
  lemma {:induction false} RemoveKeepsUnique<T>(s: seq<T>, id: T -> Id, key: Id)
    ensures UniqueIds(s, id) ==> UniqueIds(Remove(s, id, key), id)
    decreases |s|
  {
    if |s| > 0 && UniqueIds(s, id) {
      assert s == [s[0]] + s[1..];
      RemoveAppend([s[0]], s[1..], id, key);
      RemoveKeepsUnique(s[1..], id, key);
      var head := Remove([s[0]], id, key);
      var tail := Remove(s[1..], id, key);
      var r := head + tail;
      forall i, j | 0 <= i < j < |r| ensures id(r[i]) != id(r[j]) {
        if i < |head| {
          assert r[i] == s[0] && r[j] == tail[j - |head|];
          var k :| 0 <= k < |s[1..]| && s[1..][k] == r[j];
          assert s[k + 1] == r[j];
        }
      }
    }
  }
}
