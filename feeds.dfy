/** What the two feed pages (`UyelerdenHaberlerPage`, `MakalelerPage`)
    share: the items the backend returns, the signed-in user, the way an
    axios failure becomes a message, and the `filter` that drops a deleted
    item from the list. */
module Feeds {
  import opened Text

  /** A news post or an article. `author` is the poster's user id; a news
      post has an empty `title`. */
  datatype Item = Item(id: int, author: int, title: string, content: string)

  /** The profile `/api/user/profile/` returns, as far as the pages use it. */
  datatype User = User(id: int, role: string)

  /** The parts of a failed axios call the pages read:
      `err.response?.data?.detail`, `err.response?.data?.error` and
      `err.message`, an absent one being the empty text. */
  datatype Failure = Failure(detail: string, error: string, message: string)

  /** The outcome of one axios call: the response's `data`, or the failure. */
  datatype Response<T> = Ok(data: T) | Err(failure: Failure)

  /** The text used when the failure carries no message at all. */
  const UnknownError := "Bilinmeyen hata"

  /** `detail || error || message || 'Bilinmeyen hata'`: the first of these
      that is not empty. */
  function ErrorMessage(f: Failure): (r: string)
    ensures r != ""
    ensures r == f.detail || r == f.error || r == f.message || r == UnknownError
    ensures f.detail != "" ==> r == f.detail
    ensures f.detail == "" && f.error != "" ==> r == f.error
    ensures f.detail == "" && f.error == "" && f.message != "" ==> r == f.message
  {
    if Truthy(f.detail) then f.detail
    else if Truthy(f.error) then f.error
    else if Truthy(f.message) then f.message
    else UnknownError
  }

  /** `items.filter(item => item.id !== id)`. */
  function RemoveById(items: seq<Item>, id: int): (r: seq<Item>)
    ensures |r| <= |items|
    ensures forall k :: 0 <= k < |r| ==> r[k].id != id
  {
    if items == [] then []
    else
      var rest := RemoveById(items[1..], id);
      if items[0].id != id then [items[0]] + rest else rest
  }

  /** Every item without the id is kept as often as it occurred, so an item
      is left exactly when it was there and has another id. */
  lemma {:induction false} RemoveKeepsOthers(items: seq<Item>, id: int)
    ensures forall x: Item :: x.id != id ==> multiset(RemoveById(items, id))[x] == multiset(items)[x]
    ensures forall x: Item :: x in RemoveById(items, id) <==> x in items && x.id != id
  {
    var r := RemoveById(items, id);
    if items != [] {
      var rest := RemoveById(items[1..], id);
      RemoveKeepsOthers(items[1..], id);
      assert items == [items[0]] + items[1..];
      assert multiset(items) == multiset([items[0]]) + multiset(items[1..]);
      if items[0].id != id {
        assert r == [items[0]] + rest;
        assert multiset(r) == multiset([items[0]]) + multiset(rest);
      } else {
        assert r == rest;
      }
    }
    forall x: Item ensures x in r <==> x in items && x.id != id {
      if x.id == id {
        assert x !in r;
      } else {
        assert (x in r <==> multiset(r)[x] > 0) && (x in items <==> multiset(items)[x] > 0);
      }
    }
  }

  /** The filter works item by item: removing from a concatenation removes
      from each part and keeps the parts in their order. */
  lemma {:induction false} RemoveAppend(a: seq<Item>, b: seq<Item>, id: int)
    ensures RemoveById(a + b, id) == RemoveById(a, id) + RemoveById(b, id)
  {
    if a == [] {
      assert a + b == b;
    } else {
      assert (a + b)[1..] == a[1..] + b;
      RemoveAppend(a[1..], b, id);
    }
  }

  /** Nothing changes when no item has the id. */
  lemma {:induction false} RemoveAbsent(items: seq<Item>, id: int)
    requires forall k :: 0 <= k < |items| ==> items[k].id != id
    ensures RemoveById(items, id) == items
  {
    if items != [] {
      RemoveAbsent(items[1..], id);
      assert items == [items[0]] + items[1..];
    }
  }

  /** Deleting twice is deleting once. */
  lemma RemoveIdempotent(items: seq<Item>, id: int)
    ensures RemoveById(RemoveById(items, id), id) == RemoveById(items, id)
  {
    RemoveAbsent(RemoveById(items, id), id);
  }

  /** A post just prepended is the one a later delete of its id drops
      again, leaving the rest as it was filtered. */
  lemma RemovePrepended(x: Item, items: seq<Item>)
    ensures RemoveById([x] + items, x.id) == RemoveById(items, x.id)
  {
    assert ([x] + items)[1..] == items;
  }
}
