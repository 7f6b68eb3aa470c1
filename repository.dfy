/** The order repository: a table of orders keyed by id, with ids handed
    out by the repository itself on the first save of an entity. */
module Repository {
  import opened Wrappers
  import opened Orders

  /** The repository's contents as a value: the stored orders and the next
      id it will hand out. */
  datatype Store = Store(orders: map<int, Order>, nextId: int) {

    /** Every stored order carries the id it is stored under. */
    ghost predicate IdsMatchKeys()
    {
      forall k :: k in orders ==> orders[k].id == Some(k)
    }

    /** Ids match keys, and every id in use lies below the next one to be
        handed out, so that id is fresh. */
    ghost predicate Valid()
    {
      IdsMatchKeys() && forall k :: k in orders ==> k < nextId
    }

    /** `findById`: the stored order, if any. */
    function FindById(id: int): (r: Option<Order>)
      ensures r.Some? <==> id in orders
      ensures r.Some? ==> r.value == orders[id]
    {
      if id in orders then Some(orders[id]) else None
    }

    /** `save`: an entity without an id is inserted under a fresh id, which
        it then carries; an entity with an id replaces the stored record
        with that id. The result is the saved entity and the new contents. */
    function Save(o: Order): (r: (Store, Order))
      requires Valid()
      requires o.id.Some? ==> o.id.value in orders
      ensures r.0.Valid()
      ensures o.id.None? ==>
        && nextId !in orders
        && r.1 == o.(id := Some(nextId))
        && r.0.orders.Keys == orders.Keys + {nextId}
        && r.0.orders[nextId] == r.1
        && r.0.nextId > nextId
      ensures o.id.Some? ==>
        && r.1 == o
        && r.0.orders.Keys == orders.Keys
        && r.0.orders[o.id.value] == o
        && r.0.nextId == nextId
      ensures forall k :: k in orders && Some(k) != o.id ==> r.0.orders[k] == orders[k]
    {
      match o.id
      case None =>
        var saved := o.(id := Some(nextId));
        (Store(orders[nextId := saved], nextId + 1), saved)
      case Some(k) =>
        (Store(orders[k := o], nextId), o)
    }
  }

  /** The repository as an object whose table the service updates in place.
      `saves` records every entity as saved, with its id, in order. */
  class OrderRepository {
    var orders: map<int, Order>
    var nextId: int
    ghost var saves: seq<Order>

    function Model(): Store
      reads this
    {
      Store(orders, nextId)
    }

    ghost predicate Valid()
      reads this
    {
      Model().Valid()
    }

    /** An empty repository whose first id is `firstId`. */
    constructor (firstId: int)
      ensures Valid()
      ensures orders == map[] && nextId == firstId && saves == []
    {
      orders := map[];
      nextId := firstId;
      saves := [];
    }

    method Save(o: Order) returns (saved: Order)
      requires Valid()
      requires o.id.Some? ==> o.id.value in orders
      modifies this
      ensures Valid()
      ensures (Model(), saved) == old(Model()).Save(o)
      ensures saves == old(saves) + [saved]
    {
      match o.id {
        case None =>
          saved := o.(id := Some(nextId));
          orders := orders[nextId := saved];
          nextId := nextId + 1;
        case Some(k) =>
          saved := o;
          orders := orders[k := o];
      }
      saves := saves + [saved];
    }
  }
}
