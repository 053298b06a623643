/**
  The edits the Home page makes to its cached list of bookmarks: looking a
  record up by id (`Array.prototype.find`), the optimistic removal
  (`filter` on the id) and the rollback that puts the removed record back at
  the front of the list.
 */
module BookmarkList {
  import opened Records

  predicate HasId(s: seq<Bookmark>, id: string) {
    exists i :: 0 <= i < |s| && s[i].id == id
  }

  /** Record ids are the table's primary key, so a list the backend returns has
      no id twice. */
  predicate UniqueIds(s: seq<Bookmark>) {
    forall i, j :: 0 <= i < j < |s| ==> s[i].id != s[j].id
  }

  /** Index of the first record with `id`, or `|s|` when there is none. */
  function FindIndex(s: seq<Bookmark>, id: string): (k: nat)
    ensures k <= |s|
    ensures k < |s| ==> s[k].id == id
    ensures forall j :: 0 <= j < k ==> s[j].id != id
    ensures k == |s| <==> !HasId(s, id)
  {
    if s == [] then 0
    else if s[0].id == id then 0
    else 1 + FindIndex(s[1..], id)
  }

  /** `bookmarks.find((b) => b.id === id)`: the first record with that id. */
  function Find(s: seq<Bookmark>, id: string): (r: Option<Bookmark>)
    ensures r.None? <==> !HasId(s, id)
    ensures r.Some? ==> r.value.id == id && r.value in s
    ensures r.Some? ==> r.value == s[FindIndex(s, id)]
  {
    var k := FindIndex(s, id);
    if k < |s| then Some(s[k]) else None
  }

  /** `prev.filter((b) => b.id !== id)`. */
  function RemoveId(s: seq<Bookmark>, id: string): (r: seq<Bookmark>)
    ensures |r| <= |s|
    ensures forall i :: 0 <= i < |r| ==> r[i].id != id
  {
    if s == [] then []
    else if s[0].id == id then RemoveId(s[1..], id)
    else [s[0]] + RemoveId(s[1..], id)
  }

  /** A record survives the removal exactly when it was in the list and carries
      another id. */
  lemma {:induction false} RemoveIdMembers(s: seq<Bookmark>, id: string, b: Bookmark)
    ensures b in RemoveId(s, id) <==> b in s && b.id != id
  {
    if s != [] {
      RemoveIdMembers(s[1..], id, b);
      assert s == [s[0]] + s[1..];
    }
  }

  /** The removal works piecewise, so the records it keeps stay in their
      original relative order. */
  lemma {:induction false} RemoveIdAppend(a: seq<Bookmark>, b: seq<Bookmark>, id: string)
    ensures RemoveId(a + b, id) == RemoveId(a, id) + RemoveId(b, id)
  {
    if a == [] {
      assert a + b == b;
    } else {
      assert (a + b)[0] == a[0];
      assert (a + b)[1..] == a[1..] + b;
      RemoveIdAppend(a[1..], b, id);
    }
  }

  /** Removing an id the list does not hold changes nothing. */
  lemma {:induction false} RemoveIdAbsent(s: seq<Bookmark>, id: string)
    requires !HasId(s, id)
    ensures RemoveId(s, id) == s
  {
    if s != [] {
      assert s[0].id != id;
      assert !HasId(s[1..], id) by {
        forall i | 0 <= i < |s[1..]| ensures s[1..][i].id != id {
          assert s[1..][i] == s[i + 1];
        }
      }
      RemoveIdAbsent(s[1..], id);
      assert s == [s[0]] + s[1..];
    }
  }

  /** No record before the one found carries its id. */
  lemma NoIdBeforeFound(s: seq<Bookmark>, id: string)
    ensures !HasId(s[..FindIndex(s, id)], id)
  {
  }

  /** With unique ids, no record after the one found carries its id. */
  lemma NoIdAfterFound(s: seq<Bookmark>, id: string)
    requires UniqueIds(s) && HasId(s, id)
    ensures !HasId(s[FindIndex(s, id) + 1..], id)
  {
  }

  /** A record whose id occurs nowhere else is the only one the removal takes out. */
  lemma RemoveOnlyOccurrence(s: seq<Bookmark>, id: string, k: nat)
    requires k < |s| && s[k].id == id
    requires !HasId(s[..k], id) && !HasId(s[k + 1..], id)
    ensures RemoveId(s, id) == s[..k] + s[k + 1..]
  {
    var pre, post := s[..k], s[k + 1..];
    var mid := [s[k]] + post;
    assert s == pre + mid;
    assert RemoveId(mid, id) == RemoveId(post, id) by {
      assert mid[0].id == id && mid[1..] == post;
    }
    RemoveIdAppend(pre, mid, id);
    RemoveIdAbsent(pre, id);
    RemoveIdAbsent(post, id);
  }

  /** With unique ids, the removal takes out exactly the one record found and
      keeps everything before and after it in place. */
  lemma RemoveIdUnique(s: seq<Bookmark>, id: string)
    requires UniqueIds(s) && HasId(s, id)
    ensures var k := FindIndex(s, id);
      RemoveId(s, id) == s[..k] + s[k + 1..]
    ensures |RemoveId(s, id)| == |s| - 1
  {
    NoIdBeforeFound(s, id);
    NoIdAfterFound(s, id);
    RemoveOnlyOccurrence(s, id, FindIndex(s, id));
  }

  /** Moving one record to the front keeps the same records. */
  lemma MoveToFront(s: seq<Bookmark>, k: nat)
    requires k < |s|
    ensures multiset([s[k]] + (s[..k] + s[k + 1..])) == multiset(s)
  {
    assert s == s[..k] + [s[k]] + s[k + 1..];
  }

  /** The rollback `[item, ...prev]` after the optimistic removal of `item`
      gives back the same records: a permutation of the list before. */
  lemma RollbackIsPermutation(s: seq<Bookmark>, id: string)
    requires UniqueIds(s) && HasId(s, id)
    ensures multiset([Find(s, id).value] + RemoveId(s, id)) == multiset(s)
  {
    RemoveIdUnique(s, id);
    MoveToFront(s, FindIndex(s, id));
  }

  /** The rollback gives back the very list it started from exactly when the
      removed record was already first: it does not restore the position. */
  lemma RollbackRestoresOnlyFirst(s: seq<Bookmark>, id: string)
    requires UniqueIds(s) && HasId(s, id)
    ensures [Find(s, id).value] + RemoveId(s, id) == s <==> s[0].id == id
  {
    var k := FindIndex(s, id);
    RemoveIdUnique(s, id);
    if k == 0 {
      assert s == [s[0]] + s[1..];
    } else {
      assert ([Find(s, id).value] + RemoveId(s, id))[0] == s[k];
      assert s[0].id != s[k].id;
    }
  }

  /** With unique ids, the removal empties the page exactly when the page held
      one record, which is what the delete handler tests for. */
  lemma EmptiedPage(s: seq<Bookmark>, id: string)
    requires UniqueIds(s) && HasId(s, id)
    ensures RemoveId(s, id) == [] <==> |s| == 1
  {
    RemoveIdUnique(s, id);
  }

  /** Dropping one record keeps ids unique. */
  lemma DropKeepsUniqueIds(s: seq<Bookmark>, k: nat)
    requires UniqueIds(s) && k < |s|
    ensures UniqueIds(s[..k] + s[k + 1..])
  {
    var t := s[..k] + s[k + 1..];
    forall i, j | 0 <= i < j < |t| ensures t[i].id != t[j].id {
      assert t[i] == s[if i < k then i else i + 1];
      assert t[j] == s[if j < k then j else j + 1];
    }
  }

  /** Putting a record with a fresh id in front keeps ids unique. */
  lemma ConsKeepsUniqueIds(x: Bookmark, t: seq<Bookmark>)
    requires UniqueIds(t)
    requires forall i :: 0 <= i < |t| ==> t[i].id != x.id
    ensures UniqueIds([x] + t)
  {
    var r := [x] + t;
    forall i, j | 0 <= i < j < |r| ensures r[i].id != r[j].id {
      assert r[j] == t[j - 1];
      if i > 0 {
        assert r[i] == t[i - 1];
      }
    }
  }

  /** The rollback keeps ids unique. */
  lemma RollbackKeepsUniqueIds(s: seq<Bookmark>, id: string)
    requires UniqueIds(s) && HasId(s, id)
    ensures UniqueIds([Find(s, id).value] + RemoveId(s, id))
  {
    var k := FindIndex(s, id);
    RemoveIdUnique(s, id);
    DropKeepsUniqueIds(s, k);
    ConsKeepsUniqueIds(s[k], RemoveId(s, id));
  }
}
