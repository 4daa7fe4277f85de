/** The item and order documents and the two ways a handler changes one: an
    update that sets the paths it carries, and `doc.set(fields)`. */
module Records {
  import opened Base

  /** An item document. Every path is optional, as in the schema; the same
      shape serves as a request body, where an absent path is one the client
      did not send. Prices are whole numbers here. */
  datatype Item = Item(
    name: Option<string>,
    price: Option<int>,
    description: Option<string>,
    quantity: Option<int>,
    image: Option<string>,
    owner: Option<Id>)

  /** The value a path takes when `update` may carry it. */
  function Pick<X>(update: Option<X>, current: Option<X>): Option<X> {
    if update.Some? then update else current
  }

  /** `findByIdAndUpdate(id, update)`: the paths `update` carries are set,
      the other paths keep their stored value. */
  function UpdateItem(doc: Item, update: Item): Item {
    Item(Pick(update.name, doc.name), Pick(update.price, doc.price),
         Pick(update.description, doc.description), Pick(update.quantity, doc.quantity),
         Pick(update.image, doc.image), Pick(update.owner, doc.owner))
  }

  /** Applying an update twice is applying it once, and two updates in a row
      are the single update that carries the later value of each path. */
  lemma UpdateItemLaws(doc: Item, u: Item, v: Item)
    ensures UpdateItem(UpdateItem(doc, u), u) == UpdateItem(doc, u)
    ensures UpdateItem(UpdateItem(doc, u), v) == UpdateItem(doc, UpdateItem(u, v))
    ensures UpdateItem(doc, Item(None, None, None, None, None, None)) == doc
  {
  }

  /** One line of an order. */
  datatype OrderLine = OrderLine(item: Option<Id>, quantity: Option<int>)

  /** An order document; `itemsOrder` is an array path and defaults to `[]`.
      Dates are instants, totals whole numbers. */
  datatype Order = Order(
    date: Option<int>,
    description: Option<string>,
    status: Option<string>,
    client: Option<Id>,
    total: Option<int>,
    itemsOrder: seq<OrderLine>)

  /** The paths a request body may carry for an order. */
  datatype OrderFields = OrderFields(
    date: Option<int>,
    description: Option<string>,
    status: Option<string>,
    client: Option<Id>,
    total: Option<int>,
    itemsOrder: Option<seq<OrderLine>>)

  /** The values of the `status` enum. */
  const OrderStatuses: seq<string> := ["Created", "Cancelled"]

  /** The enum validator: an absent status passes, a present one must be
      listed. */
  predicate StatusAllowed(status: Option<string>) {
    status.None? || status.value in OrderStatuses
  }

  /** Every stored order passed validation when it was saved. */
  predicate OrdersValid(docs: map<Id, Order>) {
    forall id :: id in docs ==> StatusAllowed(docs[id].status)
  }

  /** `Order.create(fields)`: a new document from the body's paths. */
  function NewOrder(f: OrderFields): Order {
    Order(f.date, f.description, f.status, f.client, f.total,
          if f.itemsOrder.Some? then f.itemsOrder.value else [])
  }

  /** `order.set(fields)`: the body's paths overwrite, the others are kept. */
  function SetOrder(o: Order, f: OrderFields): Order {
    Order(Pick(f.date, o.date), Pick(f.description, o.description), Pick(f.status, o.status),
          Pick(f.client, o.client), Pick(f.total, o.total),
          if f.itemsOrder.Some? then f.itemsOrder.value else o.itemsOrder)
  }

  /** `set` keeps the paths the body leaves out, so applying the same body
      twice is applying it once and an empty body changes nothing; a stored
      valid status survives unless the body brings one of its own. */
  lemma SetOrderLaws(o: Order, f: OrderFields)
    ensures SetOrder(SetOrder(o, f), f) == SetOrder(o, f)
    ensures SetOrder(o, OrderFields(None, None, None, None, None, None)) == o
    ensures StatusAllowed(o.status) ==> (StatusAllowed(SetOrder(o, f).status) <==> StatusAllowed(f.status))
  {
  }

  /** Every stored item has an owner. */
  predicate ItemsOwned(docs: map<Id, Item>) {
    forall id :: id in docs ==> docs[id].owner.Some?
  }
}
