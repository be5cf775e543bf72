/** The in-memory menu items of server.js (`restaurantData.menuItems`) and
    the three endpoints that change them in place: `POST /api/menu` pushes,
    `PUT /api/menu/:id` merges the body into the item, `DELETE
    /api/menu/:id` splices it out. */
module MenuItems {
  import opened JsValues

  /** A menu item: a JSON object, seen as its own properties. */
  type MenuItem = map<string, Json>

  /** `item.id === id` for a number `id`: a string id never matches. */
  predicate HasId(item: MenuItem, id: int) {
    "id" in item && item["id"] == JNumber(id)
  }

  /** `findIndex(item => item.id === id)`: the first item with that id;
      `NaN` (an unparseable route id) matches nothing. */
  function IndexOfItem(items: seq<MenuItem>, id: Option<int>): (r: Option<nat>)
    ensures r.Some? ==> id.Some? && r.value < |items| && HasId(items[r.value], id.value)
    ensures r.Some? ==> forall j :: 0 <= j < r.value ==> !HasId(items[j], id.value)
    ensures r.None? ==> id.None? || forall j :: 0 <= j < |items| ==> !HasId(items[j], id.value)
  {
    if id.None? || items == [] then None
    else
      match IndexOfItem(items[..|items| - 1], id)
      case Some(i) => Some(i)
      case None => if HasId(items[|items| - 1], id.value) then Some(|items| - 1) else None
  }

  /** `{ id: menuItems.length + 1, ...body }`: an `id` in the body wins. */
  function NewItem(count: nat, body: MenuItem): (item: MenuItem)
    ensures "id" in item
    ensures "id" !in body ==> item["id"] == JNumber(count + 1)
    ensures forall k :: k in body ==> k in item && item[k] == body[k]
    ensures item.Keys == body.Keys + {"id"}
  {
    map["id" := JNumber(count + 1)] + body
  }

  /** `{ ...item, ...body }`: the body's properties replace the item's,
      the others stay. */
  function Merged(item: MenuItem, body: MenuItem): (r: MenuItem)
    ensures r.Keys == item.Keys + body.Keys
    ensures forall k :: k in body ==> r[k] == body[k]
    ensures forall k :: k in item && k !in body ==> r[k] == item[k]
  {
    item + body
  }

  /** Merging the same body twice is merging it once. */
  lemma MergeIdempotent(item: MenuItem, body: MenuItem)
    ensures Merged(Merged(item, body), body) == Merged(item, body)
  {
  }

  class MenuItemList {
    var items: seq<MenuItem>

    constructor (initial: seq<MenuItem>)
      ensures items == initial
    {
      items := initial;
    }

    /** The `findIndex` scan. */
    method FindIndex(id: Option<int>) returns (index: Option<nat>)
      ensures index == IndexOfItem(items, id)
    {
      if id.None? {
        return None;
      }
      var j := 0;
      while j < |items|
        invariant 0 <= j <= |items|
        invariant forall k :: 0 <= k < j ==> !HasId(items[k], id.value)
      {
        if HasId(items[j], id.value) {
          return Some(j);
        }
        j := j + 1;
      }
      return None;
    }

    /** `POST /api/menu`: appends one item numbered after the current
        length. */
    method Post(body: MenuItem) returns (item: MenuItem)
      modifies this
      ensures item == NewItem(|old(items)|, body)
      ensures items == old(items) + [item]
    {
      item := NewItem(|items|, body);
      items := items + [item];
    }

    /** `PUT /api/menu/:id`: merges the body into the first item with the
        id; 404 leaves the list as it was. */
    method Put(routeId: string, body: MenuItem) returns (status: int)
      modifies this
      ensures var i := IndexOfItem(old(items), ParseInt(routeId));
              && (status == 404 <==> i.None?)
              && (i.None? ==> items == old(items))
              && (i.Some? ==> status == 200 && items == old(items)[i.value := Merged(old(items)[i.value], body)])
    {
      var index := FindIndex(ParseInt(routeId));
      if index.None? {
        return 404;
      }
      items := items[index.value := Merged(items[index.value], body)];
      status := 200;
    }

    /** `DELETE /api/menu/:id`: splices out the first item with the id,
        keeping the others in order; 404 leaves the list as it was. */
    method Delete(routeId: string) returns (status: int)
      modifies this
      ensures var i := IndexOfItem(old(items), ParseInt(routeId));
              && (status == 404 <==> i.None?)
              && (i.None? ==> items == old(items))
              && (i.Some? ==> status == 200 && items == old(items)[..i.value] + old(items)[i.value + 1..])
    {
      var index := FindIndex(ParseInt(routeId));
      if index.None? {
        return 404;
      }
      items := items[..index.value] + items[index.value + 1..];
      status := 200;
    }
  }

  /** Numbering by length repeats an id once an item is deleted: with
      items 1, 2, 3, deleting 1 and posting gives a second item 3. */
  lemma PostAfterDeleteDuplicatesId(a: MenuItem, b: MenuItem, c: MenuItem, body: MenuItem)
    requires HasId(a, 1) && HasId(b, 2) && HasId(c, 3) && "id" !in body
    ensures var after := [b, c] + [NewItem(|[b, c]|, body)];
            HasId(after[1], 3) && HasId(after[2], 3)
  {
  }

  /** After a PUT the item found by the route id carries the body's
      properties, and a PUT that changes no `id` can be found again. */
  lemma PutKeepsItemFindable(items: seq<MenuItem>, id: int, body: MenuItem)
    requires IndexOfItem(items, Some(id)).Some?
    requires "id" !in body
    ensures var i := IndexOfItem(items, Some(id)).value;
            IndexOfItem(items[i := Merged(items[i], body)], Some(id)) == Some(i)
  {
    var i := IndexOfItem(items, Some(id)).value;
    var items' := items[i := Merged(items[i], body)];
    assert HasId(items'[i], id);
    assert forall j :: 0 <= j < i ==> items'[j] == items[j];
    var r := IndexOfItem(items', Some(id));
    assert r.Some?;
  }
}
