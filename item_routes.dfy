/** The `/api/v1/items` routes: a public paginated search, a public read by
    id, creation by Admins and Owners, and update and deletion by the item's
    owner. Every stored item keeps an owner. */
module ItemRoutes {
  import opened Base
  import opened Crypto
  import opened Records
  import opened Store
  import opened Paging
  import opened Http
  import opened AuthMiddleware

  /** The path the item search looks at. */
  function NameOf(item: Item): Option<string> {
    item.name
  }

  /** The roles allowed to create items. */
  const CreatorRoles: seq<string> := ["Admin", "Owner"]

  /** GET /items. `failure` is the message of an error either store query
      throws. The page holds the stored items whose name matches `q`, from
      position `skip` on, at most `limit` of them, and counts all matches. */
  function List(items: Collection<Item>, query: ListQuery, failure: Option<string>): (r: Response)
    reads items
    requires items.Valid()
    requires OrDefault(query.page, DefaultPage) >= 1 && OrDefault(query.limit, DefaultLimit) >= 1
    ensures failure.Some? ==> r == Response(500, ErrorBody("Server error"))
    ensures failure.None? ==> r.status == 200 && r.body.ItemsBody?
    ensures r.body.ItemsBody? ==>
      var p, page, limit := r.body.items, OrDefault(query.page, DefaultPage), OrDefault(query.limit, DefaultLimit);
      var matching := Search(items.Contents(), NameOf, query.q);
      && IsPage(p, matching, page, limit)
      && (|p.results| > 0 <==> page <= p.totalPages)
      && (page < p.totalPages ==> |p.results| == limit)
      && (forall e :: e in p.results ==> e.0 in items.docs && items.docs[e.0] == e.1 && Matches(e.1.name, query.q))
  {
    if failure.Some? then Response(500, ErrorBody("Server error"))
    else
      var matching := Search(items.Contents(), NameOf, query.q);
      var p := Paginate(matching, OrDefault(query.page, DefaultPage), OrDefault(query.limit, DefaultLimit));
      ListedAreStored(items, query.q, p.results);
      Response(200, ItemsBody(p))
  }

  /** Every entry a page shows is a stored item whose name matches. */
  lemma ListedAreStored(items: Collection<Item>, q: Option<string>, results: seq<(Id, Item)>)
    requires items.Valid()
    requires forall e :: e in results ==> e in Search(items.Contents(), NameOf, q)
    ensures forall e :: e in results ==> e.0 in items.docs && items.docs[e.0] == e.1 && Matches(e.1.name, q)
  {
    var es := items.Contents();
    forall e | e in results
      ensures e.0 in items.docs && items.docs[e.0] == e.1 && Matches(e.1.name, q)
    {
      assert e in es;
      var i :| 0 <= i < |es| && es[i] == e;
    }
  }

  /** Without a search term the listing pages through every stored item. */
  lemma ListWithoutTerm(items: Collection<Item>, query: ListQuery)
    requires items.Valid()
    requires OrDefault(query.page, DefaultPage) >= 1 && OrDefault(query.limit, DefaultLimit) >= 1
    requires query.q.None? || query.q.value == ""
    ensures List(items, query, None).body.items.totalCount == |items.docs|
  {
    SearchWithoutTerm(items.Contents(), NameOf, query.q);
  }

  /** GET /items/:id, which needs no authentication. */
  function Get(items: Collection<Item>, id: Id, failure: Option<string>): (r: Response)
    reads items
    ensures failure.Some? ==> r == Response(500, ErrorBody("Server error"))
    ensures failure.None? && id in items.docs ==> r == Response(200, ItemBody(id, items.docs[id]))
    ensures failure.None? && id !in items.docs ==> r == Response(404, ErrorBody("Item not found"))
  {
    if failure.Some? then Response(500, ErrorBody("Server error"))
    else
      match items.Get(id)
      case None => Response(404, ErrorBody("Item not found"))
      case Some(item) => Response(200, ItemBody(id, item))
  }

  /** POST /items behind `isAuth` and `hasRole(["Admin", "Owner"])`. The
      stored owner is the caller, whatever the body says. `failure` is the
      message of an error `Item.create` throws. */
  method Create(req: Request, decode: string -> Result<Jwt, string>, now: int,
                items: Collection<Item>, body: Item, failure: Option<string>) returns (r: Response)
    requires items.Valid() && ItemsOwned(items.docs)
    modifies req, items
    ensures items.Valid() && ItemsOwned(items.docs)
    ensures var a := Admit(req.authorization, decode, now, CreatorRoles);
      && (a.Err? ==> r == a.error && unchanged(items))
      && (a.Ok? && failure.Some? ==> r == Response(400, ErrorBody("Invalid request")) && unchanged(items))
      && (a.Ok? && failure.None? ==>
            && r.status == 201 && r.body.ItemBody?
            && r.body.itemId !in old(items.docs)
            && r.body.item == body.(owner := Some(a.value.id))
            && items.docs == old(items.docs)[r.body.itemId := r.body.item]
            && items.ids == old(items.ids) + [r.body.itemId])
  {
    var g := IsAuthHasRole(req, decode, now, CreatorRoles);
    if g.Halt? {
      return g.response;
    }
    if failure.Some? {
      return Response(400, ErrorBody("Invalid request"));
    }
    var doc := body.(owner := Some(req.user.value.id));
    var id := items.Insert(doc);
    r := Response(201, ItemBody(id, doc));
  }

  /** PUT /items/:id behind `isAuth` and `isOwner`. The body's paths are set,
      the owner is forced to the caller, the other paths and every other item
      are kept, and the answer is 203. `lookupFailure` and `failure` are the
      messages of errors the ownership lookup and the update throw. */
  method Update(req: Request, decode: string -> Result<Jwt, string>, now: int,
                items: Collection<Item>, id: Id, body: Item,
                lookupFailure: Option<string>, failure: Option<string>) returns (r: Response)
    requires items.Valid() && ItemsOwned(items.docs)
    modifies req, items
    ensures items.Valid() && ItemsOwned(items.docs)
    ensures var a := Authenticate(req.authorization, decode, now);
      && (a.Err? ==> r == a.error && unchanged(items))
      && (a.Ok? && IsOwner(old(items.docs), id, a.value, lookupFailure).Halt? ==>
            r == IsOwner(old(items.docs), id, a.value, lookupFailure).response && unchanged(items))
      && (a.Ok? && IsOwner(old(items.docs), id, a.value, lookupFailure).Next? && failure.Some? ==>
            r == Response(400, ErrorBody("Invalid request")) && unchanged(items))
      && (a.Ok? && IsOwner(old(items.docs), id, a.value, lookupFailure).Next? && failure.None? ==>
            && id in old(items.docs)
            && r == Response(203, ItemBody(id, UpdateItem(old(items.docs)[id], body.(owner := Some(a.value.id)))))
            && items.docs == old(items.docs)[id := r.body.item]
            && items.ids == old(items.ids))
  {
    var g := IsAuth(req, decode, now);
    if g.Halt? {
      return g.response;
    }
    g := IsOwner(items.docs, id, req.user.value, lookupFailure);
    if g.Halt? {
      return g.response;
    }
    if failure.Some? {
      return Response(400, ErrorBody("Invalid request"));
    }
    var updated := UpdateItem(items.docs[id], body.(owner := Some(req.user.value.id)));
    items.Put(id, updated);
    r := Response(203, ItemBody(id, updated));
  }

  /** A successful update leaves the item owned by the caller, even when the
      body names another owner. */
  lemma UpdateKeepsCallerOwner(doc: Item, body: Item, caller: Id)
    ensures UpdateItem(doc, body.(owner := Some(caller))).owner == Some(caller)
    ensures var u := UpdateItem(doc, body.(owner := Some(caller)));
      && (body.name.None? ==> u.name == doc.name)
      && (body.price.None? ==> u.price == doc.price)
      && (body.quantity.None? ==> u.quantity == doc.quantity)
  {
  }

  /** DELETE /items/:id behind `isAuth` and `isOwner`: removes that item
      only and answers 204. `lookupFailure` and `failure` are the messages of
      errors the ownership lookup and the deletion throw. */
  method Delete(req: Request, decode: string -> Result<Jwt, string>, now: int,
                items: Collection<Item>, id: Id,
                lookupFailure: Option<string>, failure: Option<string>) returns (r: Response)
    requires items.Valid() && ItemsOwned(items.docs)
    modifies req, items
    ensures items.Valid() && ItemsOwned(items.docs)
    ensures var a := Authenticate(req.authorization, decode, now);
      && (a.Err? ==> r == a.error && unchanged(items))
      && (a.Ok? && IsOwner(old(items.docs), id, a.value, lookupFailure).Halt? ==>
            r == IsOwner(old(items.docs), id, a.value, lookupFailure).response && unchanged(items))
      && (a.Ok? && IsOwner(old(items.docs), id, a.value, lookupFailure).Next? && failure.Some? ==>
            r == Response(500, ErrorBody("Server error")) && unchanged(items))
      && (a.Ok? && IsOwner(old(items.docs), id, a.value, lookupFailure).Next? && failure.None? ==>
            && id in old(items.docs)
            && r == Response(204, NoContent)
            && items.docs == old(items.docs) - {id}
            && items.ids == Without(old(items.ids), id))
  {
    var g := IsAuth(req, decode, now);
    if g.Halt? {
      return g.response;
    }
    g := IsOwner(items.docs, id, req.user.value, lookupFailure);
    if g.Halt? {
      return g.response;
    }
    if failure.Some? {
      return Response(500, ErrorBody("Server error"));
    }
    items.Remove(id);
    r := Response(204, NoContent);
  }
}
