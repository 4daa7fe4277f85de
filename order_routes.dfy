/** The `/api/v1/orders` routes: Clients place orders, Admins list, read,
    replace, re-status and delete them. Every save runs the schema's enum
    validator on `status`, so every stored order keeps an allowed status.
    The router is not mounted by the application; its handlers are modelled
    as written. */
module OrderRoutes {
  import opened Base
  import opened Crypto
  import opened Store
  import opened Records
  import opened Http
  import opened AuthMiddleware

  const ClientOnly: seq<string> := ["Client"]

  /** POST /orders: the body's paths with `client` forced to the caller.
      `failure` is the message of any other error the store throws (a cast
      of a malformed path, a lost connection). */
  method Create(req: Request, decode: string -> Result<Jwt, string>, now: int,
                orders: Collection<Order>, body: OrderFields, failure: Option<string>) returns (r: Response)
    requires orders.Valid() && OrdersValid(orders.docs)
    modifies req, orders
    ensures orders.Valid() && OrdersValid(orders.docs)
    ensures var a := Admit(req.authorization, decode, now, ClientOnly);
      && (a.Err? ==> r == a.error && unchanged(orders))
      && (a.Ok? && (failure.Some? || !StatusAllowed(body.status)) ==>
            r == Response(400, ErrorBody("Invalid request")) && unchanged(orders))
      && (a.Ok? && failure.None? && StatusAllowed(body.status) ==>
            var o := NewOrder(body.(client := Some(a.value.id)));
            && r.status == 201 && r.body.OrderBody? && r.body.order == o
            && r.body.orderId !in old(orders.docs)
            && orders.docs == old(orders.docs)[r.body.orderId := o]
            && orders.ids == old(orders.ids) + [r.body.orderId])
  {
    var g := IsAuthHasRole(req, decode, now, ClientOnly);
    if g.Halt? {
      return g.response;
    }
    var o := NewOrder(body.(client := Some(req.user.value.id)));
    if failure.Some? || !StatusAllowed(o.status) {
      return Response(400, ErrorBody("Invalid request"));
    }
    var id := orders.Insert(o);
    r := Response(201, OrderBody(id, o));
  }

  /** GET /orders: every stored order, in store order. */
  method List(req: Request, decode: string -> Result<Jwt, string>, now: int,
              orders: Collection<Order>, failure: Option<string>) returns (r: Response)
    requires orders.Valid()
    modifies req
    ensures var a := Admit(req.authorization, decode, now, AdminOnly);
      && (a.Err? ==> r == a.error)
      && (a.Ok? && failure.Some? ==> r == Response(500, ErrorBody("Server error")))
      && (a.Ok? && failure.None? ==> r == Response(200, OrdersBody(orders.Contents())))
  {
    var g := IsAuthHasRole(req, decode, now, AdminOnly);
    if g.Halt? {
      return g.response;
    }
    if failure.Some? {
      return Response(500, ErrorBody("Server error"));
    }
    r := Response(200, OrdersBody(orders.Contents()));
  }

  /** GET /orders/:id. */
  method Get(req: Request, decode: string -> Result<Jwt, string>, now: int,
             orders: Collection<Order>, id: Id, failure: Option<string>) returns (r: Response)
    modifies req
    ensures var a := Admit(req.authorization, decode, now, AdminOnly);
      && (a.Err? ==> r == a.error)
      && (a.Ok? && failure.Some? ==> r == Response(500, ErrorBody("Server error")))
      && (a.Ok? && failure.None? && id !in orders.docs ==> r == Response(404, ErrorBody("Order not found")))
      && (a.Ok? && failure.None? && id in orders.docs ==> r == Response(200, OrderBody(id, orders.docs[id])))
  {
    var g := IsAuthHasRole(req, decode, now, AdminOnly);
    if g.Halt? {
      return g.response;
    }
    if failure.Some? {
      return Response(500, ErrorBody("Server error"));
    }
    var found := orders.Get(id);
    if found.None? {
      return Response(404, ErrorBody("Order not found"));
    }
    r := Response(200, OrderBody(id, found.value));
  }

  /** PUT /orders/:id: the body's paths are set on the stored order (even
      `client`) and the result is saved; a status outside the enum is refused
      and nothing is written. `lookupFailure` is an error of the lookup,
      `failure` one of the save. */
  method Put(req: Request, decode: string -> Result<Jwt, string>, now: int,
             orders: Collection<Order>, id: Id, body: OrderFields,
             lookupFailure: Option<string>, failure: Option<string>) returns (r: Response)
    requires orders.Valid() && OrdersValid(orders.docs)
    modifies req, orders
    ensures orders.Valid() && OrdersValid(orders.docs)
    ensures var a := Admit(req.authorization, decode, now, AdminOnly);
      && (a.Err? ==> r == a.error && unchanged(orders))
      && (a.Ok? && lookupFailure.Some? ==> r == Response(400, ErrorBody("Invalid request")) && unchanged(orders))
      && (a.Ok? && lookupFailure.None? && id !in old(orders.docs) ==>
            r == Response(404, ErrorBody("Order not found")) && unchanged(orders))
      && (a.Ok? && lookupFailure.None? && id in old(orders.docs) ==>
            var updated := SetOrder(old(orders.docs)[id], body);
            if failure.Some? || !StatusAllowed(body.status)
            then r == Response(400, ErrorBody("Invalid request")) && unchanged(orders)
            else r == Response(200, OrderBody(id, updated))
                 && orders.docs == old(orders.docs)[id := updated] && orders.ids == old(orders.ids))
  {
    var g := IsAuthHasRole(req, decode, now, AdminOnly);
    if g.Halt? {
      return g.response;
    }
    if lookupFailure.Some? {
      return Response(400, ErrorBody("Invalid request"));
    }
    var found := orders.Get(id);
    if found.None? {
      return Response(404, ErrorBody("Order not found"));
    }
    var updated := SetOrder(found.value, body);
    SetOrderLaws(found.value, body);
    if failure.Some? || !StatusAllowed(updated.status) {
      return Response(400, ErrorBody("Invalid request"));
    }
    orders.Put(id, updated);
    r := Response(200, OrderBody(id, updated));
  }

  /** PATCH /orders/:id: the status becomes the body's status, and an absent
      one clears it; every other path of the order is kept. */
  method Patch(req: Request, decode: string -> Result<Jwt, string>, now: int,
               orders: Collection<Order>, id: Id, status: Option<string>,
               lookupFailure: Option<string>, failure: Option<string>) returns (r: Response)
    requires orders.Valid() && OrdersValid(orders.docs)
    modifies req, orders
    ensures orders.Valid() && OrdersValid(orders.docs)
    ensures var a := Admit(req.authorization, decode, now, AdminOnly);
      && (a.Err? ==> r == a.error && unchanged(orders))
      && (a.Ok? && lookupFailure.Some? ==> r == Response(400, ErrorBody("Invalid request")) && unchanged(orders))
      && (a.Ok? && lookupFailure.None? && id !in old(orders.docs) ==>
            r == Response(404, ErrorBody("Order not found")) && unchanged(orders))
      && (a.Ok? && lookupFailure.None? && id in old(orders.docs) ==>
            var updated := old(orders.docs)[id].(status := status);
            if failure.Some? || !StatusAllowed(status)
            then r == Response(400, ErrorBody("Invalid request")) && unchanged(orders)
            else r == Response(200, OrderBody(id, updated))
                 && orders.docs == old(orders.docs)[id := updated] && orders.ids == old(orders.ids))
  {
    var g := IsAuthHasRole(req, decode, now, AdminOnly);
    if g.Halt? {
      return g.response;
    }
    if lookupFailure.Some? {
      return Response(400, ErrorBody("Invalid request"));
    }
    var found := orders.Get(id);
    if found.None? {
      return Response(404, ErrorBody("Order not found"));
    }
    var updated := found.value.(status := status);
    if failure.Some? || !StatusAllowed(status) {
      return Response(400, ErrorBody("Invalid request"));
    }
    orders.Put(id, updated);
    r := Response(200, OrderBody(id, updated));
  }

  /** DELETE /orders/:id: removes that order only and answers 204. */
  method Delete(req: Request, decode: string -> Result<Jwt, string>, now: int,
                orders: Collection<Order>, id: Id, failure: Option<string>) returns (r: Response)
    requires orders.Valid() && OrdersValid(orders.docs)
    modifies req, orders
    ensures orders.Valid() && OrdersValid(orders.docs)
    ensures var a := Admit(req.authorization, decode, now, AdminOnly);
      && (a.Err? ==> r == a.error && unchanged(orders))
      && (a.Ok? && failure.Some? ==> r == Response(500, ErrorBody("Server error")) && unchanged(orders))
      && (a.Ok? && failure.None? && id !in old(orders.docs) ==>
            r == Response(404, ErrorBody("Order not found")) && unchanged(orders))
      && (a.Ok? && failure.None? && id in old(orders.docs) ==>
            r == Response(204, NoContent) && orders.docs == old(orders.docs) - {id}
            && orders.ids == Without(old(orders.ids), id))
  {
    var g := IsAuthHasRole(req, decode, now, AdminOnly);
    if g.Halt? {
      return g.response;
    }
    if failure.Some? {
      return Response(500, ErrorBody("Server error"));
    }
    if id !in orders.docs {
      return Response(404, ErrorBody("Order not found"));
    }
    orders.Remove(id);
    r := Response(204, NoContent);
  }
}
