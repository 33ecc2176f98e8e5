/** Reading a listing of stored objects through a filter that accepts some and passes over the rest. */
module ObjectListing {
  import opened Common
  import opened Hex

  /** One step of a listing: it breaks off, names an object that cannot be fetched, or gives one. */
  datatype Listed = ListFailed | GetFailed(key: string) | Found(key: string, bytes: Bytes)

  ghost predicate AllFetched(listing: seq<Listed>) {
    forall i :: 0 <= i < |listing| ==> listing[i].Found?
  }

  function AcceptedOf<C>(accept: Bytes -> Option<C>, o: Listed): Option<C> {
    if o.Found? then accept(o.bytes) else None
  }

  function OneAccepted<C>(accept: Bytes -> Option<C>, o: Listed): seq<C> {
    if AcceptedOf(accept, o).Some? then [AcceptedOf(accept, o).value] else []
  }

  /** What a listing gives, in its order. */
  function AllAccepted<C>(accept: Bytes -> Option<C>, listing: seq<Listed>): seq<C> {
    if listing == [] then []
    else AllAccepted(accept, listing[..|listing| - 1]) + OneAccepted(accept, listing[|listing| - 1])
  }

  lemma AllAcceptedAppend<C>(accept: Bytes -> Option<C>, listing: seq<Listed>, o: Listed)
    ensures AllAccepted(accept, listing + [o]) == AllAccepted(accept, listing) + OneAccepted(accept, o)
  {
    assert (listing + [o])[..|listing|] == listing;
  }

  /** What reading a listing comes to: nothing at all if the store fails, or what was accepted. */
  ghost function ReadOf<C>(accept: Bytes -> Option<C>, listing: seq<Listed>): Option<seq<C>> {
    if AllFetched(listing) then Some(AllAccepted(accept, listing)) else None
  }

  /** One more object read. */
  lemma ReadOneMore<C>(accept: Bytes -> Option<C>, listing: seq<Listed>, i: nat)
    requires i < |listing| && AllFetched(listing[..i]) && listing[i].Found?
    ensures AllFetched(listing[..i + 1])
    ensures AllAccepted(accept, listing[..i + 1]) == AllAccepted(accept, listing[..i]) + OneAccepted(accept, listing[i])
  {
    assert listing[..i + 1] == listing[..i] + [listing[i]];
    AllAcceptedAppend(accept, listing[..i], listing[i]);
  }

  // ----- Objects that are passed over ------------------------------------------------------------

  /** An object that was fetched and is not accepted. */
  predicate Junk<C>(accept: Bytes -> Option<C>, o: Listed) {
    o.Found? && accept(o.bytes).None?
  }

  /** A listing without its junk: the objects that are accepted, and the failures. */
  function Visible<C>(accept: Bytes -> Option<C>, listing: seq<Listed>): seq<Listed> {
    if listing == [] then []
    else
      Visible(accept, listing[..|listing| - 1])
      + if Junk(accept, listing[|listing| - 1]) then [] else [listing[|listing| - 1]]
  }

  lemma {:induction false} AcceptedAreVisible<C>(accept: Bytes -> Option<C>, listing: seq<Listed>)
    ensures AllAccepted(accept, Visible(accept, listing)) == AllAccepted(accept, listing)
  {
    if listing != [] {
      var front, last := listing[..|listing| - 1], listing[|listing| - 1];
      AcceptedAreVisible(accept, front);
      if Junk(accept, last) {
        assert Visible(accept, listing) == Visible(accept, front) && OneAccepted(accept, last) == [];
      } else {
        AllAcceptedAppend(accept, Visible(accept, front), last);
      }
    }
  }

  lemma FetchedAppend(listing: seq<Listed>, o: Listed)
    ensures AllFetched(listing + [o]) <==> AllFetched(listing) && o.Found?
  {
    if AllFetched(listing + [o]) {
      assert (listing + [o])[|listing|] == o;
      assert forall i :: 0 <= i < |listing| ==> (listing + [o])[i] == listing[i];
    }
  }

  lemma {:induction false} FailuresAreVisible<C>(accept: Bytes -> Option<C>, listing: seq<Listed>)
    ensures AllFetched(Visible(accept, listing)) <==> AllFetched(listing)
  {
    if listing != [] {
      var front, last := listing[..|listing| - 1], listing[|listing| - 1];
      FailuresAreVisible(accept, front);
      assert listing == front + [last];
      FetchedAppend(front, last);
      if Junk(accept, last) {
        assert Visible(accept, listing) == Visible(accept, front);
      } else {
        assert Visible(accept, listing) == Visible(accept, front) + [last];
        FetchedAppend(Visible(accept, front), last);
      }
    }
  }

  /** Junk may be added, removed or moved without changing what the read comes to, a failure included. */
  lemma UnacceptedAreInvisible<C>(accept: Bytes -> Option<C>, listing: seq<Listed>, listing': seq<Listed>)
    requires Visible(accept, listing) == Visible(accept, listing')
    ensures ReadOf(accept, listing) == ReadOf(accept, listing')
  {
    AcceptedAreVisible(accept, listing);
    AcceptedAreVisible(accept, listing');
    FailuresAreVisible(accept, listing);
    FailuresAreVisible(accept, listing');
  }

  lemma {:induction false} VisibleConcat<C>(accept: Bytes -> Option<C>, a: seq<Listed>, b: seq<Listed>)
    ensures Visible(accept, a + b) == Visible(accept, a) + Visible(accept, b)
  {
    if b == [] {
      assert a + b == a;
    } else {
      VisibleConcat(accept, a, b[..|b| - 1]);
      assert (a + b)[..|a + b| - 1] == a + b[..|b| - 1];
    }
  }

  lemma {:induction false} JunkIsInvisible<C>(accept: Bytes -> Option<C>, junk: seq<Listed>)
    requires forall i :: 0 <= i < |junk| ==> Junk(accept, junk[i])
    ensures Visible(accept, junk) == []
  {
    if junk != [] {
      JunkIsInvisible(accept, junk[..|junk| - 1]);
    }
  }

  /** In particular, junk anywhere in a listing changes nothing, whether the read succeeds or not. */
  lemma JunkChangesNothing<C>(accept: Bytes -> Option<C>, a: seq<Listed>, junk: seq<Listed>, b: seq<Listed>)
    requires forall i :: 0 <= i < |junk| ==> Junk(accept, junk[i])
    ensures ReadOf(accept, a + junk + b) == ReadOf(accept, a + b)
  {
    var longer := a + junk;
    JunkIsInvisible(accept, junk);
    VisibleConcat(accept, longer, b);
    VisibleConcat(accept, a, junk);
    VisibleConcat(accept, a, b);
    assert Visible(accept, a) + [] == Visible(accept, a);
    UnacceptedAreInvisible(accept, longer + b, a + b);
  }

  // ----- Reading back what was put ---------------------------------------------------------------

  type Store = map<string, Bytes>

  function Without(listing: seq<Listed>, k: nat): (r: seq<Listed>)
    requires k < |listing|
    ensures |r| == |listing| - 1 && forall i :: 0 <= i < |r| ==> r[i] == listing[if i < k then i else i + 1]
  {
    listing[..k] + listing[k + 1..]
  }

  /** A listing names every object of the store once, in any order. */
  ghost predicate Lists(store: Store, listing: seq<Listed>) {
    && (forall i :: 0 <= i < |listing| ==> listing[i].Found? && listing[i].key in store && listing[i].bytes == store[listing[i].key])
    && (forall key :: key in store ==> exists i :: 0 <= i < |listing| && listing[i].key == key)
    && forall i, j :: 0 <= i < j < |listing| ==> listing[i].key != listing[j].key
  }

  /** An object as it is put, and what it should read back as. */
  datatype Put<C> = Put(key: string, bytes: Bytes, value: C)

  ghost predicate KeysApart<C>(puts: seq<Put<C>>) {
    forall i, j :: 0 <= i < j < |puts| ==> puts[i].key != puts[j].key
  }

  /** The store holds exactly what was put. */
  ghost predicate Holds<C>(store: Store, puts: seq<Put<C>>) {
    && (forall key :: key in store <==> exists i :: 0 <= i < |puts| && puts[i].key == key)
    && forall i :: 0 <= i < |puts| ==> puts[i].key in store && store[puts[i].key] == puts[i].bytes
  }

  lemma HoldsAfterPut<C>(store: Store, puts: seq<Put<C>>, n: nat)
    requires n < |puts| && KeysApart(puts) && Holds(store, puts[..n])
    ensures Holds(store[puts[n].key := puts[n].bytes], puts[..n + 1])
  {
    var before, after := puts[..n], puts[..n + 1];
    var store' := store[puts[n].key := puts[n].bytes];
    assert after == before + [puts[n]];
    forall key ensures key in store' <==> exists i :: 0 <= i < |after| && after[i].key == key {
      if key in store' {
        if key != puts[n].key {
          var i :| 0 <= i < |before| && before[i].key == key;
          assert after[i].key == key;
        } else {
          assert after[n].key == key;
        }
      }
      if i :| 0 <= i < |after| && after[i].key == key {
        if i < n {
          assert before[i].key == key;
        }
      }
    }
    forall i | 0 <= i < |after| ensures after[i].key in store' && store'[after[i].key] == after[i].bytes {
      if i < n {
        assert before[i] == after[i] == puts[i];
      }
    }
  }

  function Values<C>(puts: seq<Put<C>>): seq<C> {
    if puts == [] then [] else Values(puts[..|puts| - 1]) + [puts[|puts| - 1].value]
  }

  lemma Associative<T>(a: seq<T>, b: seq<T>, c: seq<T>)
    ensures (a + b) + c == a + (b + c)
  {
  }

  lemma {:induction false} AllAcceptedConcat<C>(accept: Bytes -> Option<C>, a: seq<Listed>, b: seq<Listed>)
    ensures AllAccepted(accept, a + b) == AllAccepted(accept, a) + AllAccepted(accept, b)
  {
    if b == [] {
      assert a + b == a;
    } else {
      var front, last := b[..|b| - 1], b[|b| - 1];
      AllAcceptedConcat(accept, a, front);
      assert b == front + [last];
      Associative(a, front, [last]);
      AllAcceptedAppend(accept, a + front, last);
      Associative(AllAccepted(accept, a), AllAccepted(accept, front), OneAccepted(accept, last));
    }
  }

  lemma AcceptedWithout<C>(accept: Bytes -> Option<C>, before: seq<Listed>, o: Listed, after: seq<Listed>, value: C)
    requires AcceptedOf(accept, o) == Some(value)
    ensures multiset(AllAccepted(accept, before + [o] + after)) == multiset(AllAccepted(accept, before + after)) + multiset{value}
  {
    AllAcceptedConcat(accept, before + [o], after);
    AllAcceptedAppend(accept, before, o);
    AllAcceptedConcat(accept, before, after);
    assert OneAccepted(accept, o) == [value];
  }

  lemma ListedOnce<C>(store: Store, puts: seq<Put<C>>, listing: seq<Listed>) returns (k: nat)
    requires puts != [] && Holds(store, puts) && Lists(store, listing)
    ensures k < |listing| && listing[k].Found? && listing[k].key == puts[|puts| - 1].key && listing[k].bytes == puts[|puts| - 1].bytes
  {
    var n := |puts| - 1;
    assert puts[n].key in store;
    k :| 0 <= k < |listing| && listing[k].key == puts[n].key;
  }

  lemma HoldsWithoutLast<C>(store: Store, puts: seq<Put<C>>)
    requires puts != [] && KeysApart(puts) && Holds(store, puts)
    ensures Holds(store - {puts[|puts| - 1].key}, puts[..|puts| - 1])
  {
    var n := |puts| - 1;
    var fewer, front := store - {puts[n].key}, puts[..n];
    forall key ensures key in fewer <==> exists i :: 0 <= i < |front| && front[i].key == key {
      if key in fewer {
        var i :| 0 <= i < |puts| && puts[i].key == key;
        assert front[i] == puts[i];
      }
    }
  }

  lemma ListsWithout(store: Store, listing: seq<Listed>, k: nat)
    requires Lists(store, listing) && k < |listing|
    ensures Lists(store - {listing[k].key}, Without(listing, k))
  {
    var rest, fewer := Without(listing, k), store - {listing[k].key};
    forall i | 0 <= i < |rest| ensures rest[i].Found? && rest[i].key in fewer && rest[i].bytes == fewer[rest[i].key] {
    }
    forall key | key in fewer ensures exists i :: 0 <= i < |rest| && rest[i].key == key {
      var i :| 0 <= i < |listing| && listing[i].key == key;
      assert rest[if i < k then i else i - 1].key == key;
    }
  }

  lemma FirstListed(store: Store, listing: seq<Listed>)
    requires Lists(store, listing) && listing != []
    ensures exists key :: key in store
  {
    assert listing[0].key in store;
  }

  lemma NothingListed<C>(store: Store, puts: seq<Put<C>>, listing: seq<Listed>)
    requires puts == [] && Holds(store, puts) && Lists(store, listing)
    ensures listing == []
  {
    if listing != [] {
      FirstListed(store, listing);
      assert false;
    }
  }

  lemma OneMoreRead<C>(accept: Bytes -> Option<C>, listing: seq<Listed>, k: nat, value: C)
    requires k < |listing| && AcceptedOf(accept, listing[k]) == Some(value)
    ensures multiset(AllAccepted(accept, listing)) == multiset(AllAccepted(accept, Without(listing, k))) + multiset{value}
  {
    assert listing == listing[..k] + [listing[k]] + listing[k + 1..];
    AcceptedWithout(accept, listing[..k], listing[k], listing[k + 1..], value);
  }

  /** Objects put under keys of their own are all read back, once each, whatever the listing's order. */
  lemma {:induction false} PutsAreReadBack<C>(accept: Bytes -> Option<C>, store: Store, puts: seq<Put<C>>, listing: seq<Listed>)
    requires KeysApart(puts) && Holds(store, puts) && Lists(store, listing)
    requires forall i :: 0 <= i < |puts| ==> accept(puts[i].bytes) == Some(puts[i].value)
    ensures multiset(AllAccepted(accept, listing)) == multiset(Values(puts))
    decreases puts
  {
    if puts == [] {
      NothingListed(store, puts, listing);
    } else {
      var n := |puts| - 1;
      var k := ListedOnce(store, puts, listing);
      HoldsWithoutLast(store, puts);
      ListsWithout(store, listing, k);
      PutsAreReadBack(accept, store - {puts[n].key}, puts[..n], Without(listing, k));
      OneMoreRead(accept, listing, k, puts[n].value);
    }
  }
}
