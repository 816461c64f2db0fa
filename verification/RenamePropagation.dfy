/** Renaming a carrier account: the new label is carried into the nickname snapshots of awaiting
    orders by two statements, one per nickname field. */
module RenamePropagation {
  import opened Common

  type Label = string

  /** A field of the snapshot object: absent, JSON null, a string, or anything else by its text. */
  datatype Field = Missing | JsonNull | JsonString(s: Label) | JsonOther(text: Label)

  datatype Status = AwaitingShipment | Shipped | Cancelled | OtherStatus

  /** The rate snapshot of an order: SQL NULL, a JSON value that is no object, or an object with the
      two nickname fields and the rest. */
  datatype Snapshot = NoSnapshot | NotAnObject | Snapshot(provider: Field, carrier: Field, rest: int)

  datatype Order = Order(status: Status, snapshot: Snapshot)

  type Orders = map<nat, Order>

  datatype Which = Provider | Carrier

  function Get(s: Snapshot, which: Which): Field
    requires s.Snapshot?
  {
    if which == Provider then s.provider else s.carrier
  }

  function Set(s: Snapshot, which: Which, f: Field): Snapshot
    requires s.Snapshot?
  {
    if which == Provider then s.(provider := f) else s.(carrier := f)
  }

  /** `->>`: the text of a field, NULL if there is none. */
  function TextOf(s: Snapshot, which: Which): Option<Label> {
    if !s.Snapshot? then None
    else
      match Get(s, which)
      case Missing => None
      case JsonNull => None
      case JsonString(t) => Some(t)
      case JsonOther(t) => Some(t)
  }

  /** The WHERE clause: awaiting, and the field's text is the old label. */
  predicate Matches(o: Order, which: Which, oldLabel: Label) {
    o.status == AwaitingShipment && TextOf(o.snapshot, which) == Some(oldLabel)
  }

  function Renamed(o: Order, which: Which, newLabel: Label): Order
    requires o.snapshot.Snapshot?
  {
    o.(snapshot := Set(o.snapshot, which, JsonString(newLabel)))
  }

  function Matching(orders: Orders, which: Which, oldLabel: Label): set<nat> {
    set id | id in orders && Matches(orders[id], which, oldLabel)
  }

  /** One UPDATE. */
  function Update(orders: Orders, which: Which, oldLabel: Label, newLabel: Label): Orders {
    map id | id in orders ::
      if Matches(orders[id], which, oldLabel) then Renamed(orders[id], which, newLabel) else orders[id]
  }

  function Opposite(which: Which): Which {
    if which == Provider then Carrier else Provider
  }

  /** What a statement may do to an order: the field holds the new label if it held the old one in an
      awaiting order, and everything else is as it was. */
  predicate OnlyField(before: Order, after: Order, which: Which, oldLabel: Label, newLabel: Label) {
    if before.status == AwaitingShipment && TextOf(before.snapshot, which) == Some(oldLabel)
    then
      && after.status == AwaitingShipment && after.snapshot.Snapshot?
      && Get(after.snapshot, which) == JsonString(newLabel)
      && Get(after.snapshot, Opposite(which)) == Get(before.snapshot, Opposite(which))
      && after.snapshot.rest == before.snapshot.rest
    else after == before
  }

  predicate OnlyFields(before: Orders, after: Orders, which: Which, oldLabel: Label, newLabel: Label) {
    && after.Keys == before.Keys
    && forall id :: id in before ==> OnlyField(before[id], after[id], which, oldLabel, newLabel)
  }

  /** That says all of it. */
  lemma {:induction false} OnlyFieldsIff(before: Orders, after: Orders, which: Which, oldLabel: Label, newLabel: Label)
    ensures OnlyFields(before, after, which, oldLabel, newLabel) <==> after == Update(before, which, oldLabel, newLabel)
  {
    var updated := Update(before, which, oldLabel, newLabel);
    if OnlyFields(before, after, which, oldLabel, newLabel) {
      forall id | id in before ensures after[id] == updated[id] {
        assert OnlyField(before[id], after[id], which, oldLabel, newLabel);
      }
    }
  }

  /** The orders that are not what they were. */
  function Changed(before: Orders, after: Orders): set<nat>
    requires before.Keys == after.Keys
  {
    set id | id in before && after[id] != before[id]
  }

  // -- The two statements ---------------------------------------------------------------------------

  /** What the rename is for, field by field. */
  function RenamedField(f: Field, oldLabel: Label, newLabel: Label): Field {
    match f
    case JsonString(t) => if t == oldLabel then JsonString(newLabel) else f
    case JsonOther(t) => if t == oldLabel then JsonString(newLabel) else f
    case _ => f
  }

  function RenamedOrder(o: Order, oldLabel: Label, newLabel: Label): Order {
    if o.status != AwaitingShipment || !o.snapshot.Snapshot? then o
    else
      o.(snapshot := Snapshot(RenamedField(o.snapshot.provider, oldLabel, newLabel),
                              RenamedField(o.snapshot.carrier, oldLabel, newLabel), o.snapshot.rest))
  }

  /** Each field of each awaiting order becomes the new label exactly if it held the old one, whatever
      the other field holds; no other order changes. */
  lemma {:induction false} BothUpdatesRename(orders: Orders, oldLabel: Label, newLabel: Label)
    ensures var after := Update(Update(orders, Provider, oldLabel, newLabel), Carrier, oldLabel, newLabel);
            && after.Keys == orders.Keys
            && forall id :: id in orders ==> after[id] == RenamedOrder(orders[id], oldLabel, newLabel)
  {}

  /** The first statement does not change what the second one matches. */
  lemma {:induction false} SecondMatchesUnchanged(orders: Orders, oldLabel: Label, newLabel: Label)
    ensures Matching(Update(orders, Provider, oldLabel, newLabel), Carrier, oldLabel)
         == Matching(orders, Carrier, oldLabel)
  {}

  function Both(orders: Orders, oldLabel: Label, newLabel: Label): Orders {
    Update(Update(orders, Provider, oldLabel, newLabel), Carrier, oldLabel, newLabel)
  }

  lemma {:induction false} ChangedAreMatches(orders: Orders, oldLabel: Label, newLabel: Label)
    requires newLabel != oldLabel
    ensures Changed(orders, Both(orders, oldLabel, newLabel))
         == Matching(orders, Provider, oldLabel) + Matching(orders, Carrier, oldLabel)
  {
    BothUpdatesRename(orders, oldLabel, newLabel);
  }

  // -- The reported count --------------------------------------------------------------------------------

  function Max(a: nat, b: nat): nat {
    if a < b then b else a
  }

  lemma {:induction false} SubsetSize<T>(a: set<T>, b: set<T>)
    requires a <= b
    ensures |a| <= |b| && (|a| == |b| <==> a == b)
  {
    assert |b - a| == |b| - |a|;
    assert b == a + (b - a);
  }

  lemma {:induction false} UnionSize<T>(a: set<T>, b: set<T>)
    ensures Max(|a|, |b|) <= |a + b| <= 2 * Max(|a|, |b|)
    ensures Max(|a|, |b|) == |a + b| <==> a <= b || b <= a
  {
    SubsetSize(a, a + b);
    SubsetSize(b, a + b);
    assert a + b == b <==> a <= b;
    assert a + b == a <==> b <= a;
    assert |a + b| <= |a| + |b|;
  }

  /** The count lies between half of and all the orders changed, and is their number exactly when one
      field's matches contain the other's. */
  lemma {:induction false} CountBounds(orders: Orders, oldLabel: Label, newLabel: Label)
    requires newLabel != oldLabel
    ensures var changed := |Changed(orders, Both(orders, oldLabel, newLabel))|;
            var a, b := Matching(orders, Provider, oldLabel), Matching(orders, Carrier, oldLabel);
            var reported := Max(|a|, |b|);
            && reported <= changed <= 2 * reported
            && (reported == changed <==> a <= b || b <= a)
  {
    ChangedAreMatches(orders, oldLabel, newLabel);
    UnionSize(Matching(orders, Provider, oldLabel), Matching(orders, Carrier, oldLabel));
  }

  // -- The request --------------------------------------------------------------------------------------------

  datatype Patch = Patch(hasLabel: bool, labelGoesNull: bool, newLabel: Option<Label>)

  /** Only a rename from one real label to another is carried into the snapshots. */
  predicate Propagates(patch: Patch, oldLabel: Option<Label>) {
    && patch.hasLabel && oldLabel.Some? && oldLabel.value != [] && !patch.labelGoesNull
    && patch.newLabel.Some? && patch.newLabel != oldLabel
  }

  /** An ordinary rename is carried: a new label is given and is not null, there was an old one that is
      not empty, and the two differ. */
  lemma {:induction false} RenameIsCarriedIff(patch: Patch, oldLabel: Option<Label>)
    ensures Propagates(patch, oldLabel)
       <==> exists o: Label, n: Label :: o != n && |o| > 0 && oldLabel == Some(o) && patch == Patch(true, false, Some(n))
  {
    if Propagates(patch, oldLabel) {
      var o, n := oldLabel.value, patch.newLabel.value;
      assert o != n && |o| > 0 && oldLabel == Some(o) && patch == Patch(true, false, Some(n));
    }
  }

  class Overrides {
    var orders: Orders

    constructor (orders: Orders)
      ensures this.orders == orders
    {
      this.orders := orders;
    }

    method UpdateField(which: Which, oldLabel: Label, newLabel: Label) returns (count: nat)
      modifies this
      ensures OnlyFields(old(orders), orders, which, oldLabel, newLabel)
      ensures count == |Matching(old(orders), which, oldLabel)|
      ensures newLabel != oldLabel ==> count == |Changed(old(orders), orders)|
    {
      var matching := Matching(orders, which, oldLabel);
      OnlyFieldsIff(orders, Update(orders, which, oldLabel, newLabel), which, oldLabel, newLabel);
      count := |matching|;
      orders := Update(orders, which, oldLabel, newLabel);
      assert newLabel != oldLabel ==> Changed(old(orders), orders) == matching;
    }

    /** Each statement commits by itself; the first one that fails ends the propagation and its count
        is not reported. */
    method Propagate(patch: Patch, oldLabel: Option<Label>, fails1: bool, fails2: bool) returns (ordersUpdated: nat)
      modifies this
      ensures !Propagates(patch, oldLabel) || fails1 ==> orders == old(orders) && ordersUpdated == 0
      ensures Propagates(patch, oldLabel) && !fails1 && fails2 ==>
                orders == Update(old(orders), Provider, oldLabel.value, patch.newLabel.value) && ordersUpdated == 0
      ensures Propagates(patch, oldLabel) && !fails1 && !fails2 ==>
                && orders == Both(old(orders), oldLabel.value, patch.newLabel.value)
                && ordersUpdated == Max(|Matching(old(orders), Provider, oldLabel.value)|,
                                        |Matching(old(orders), Carrier, oldLabel.value)|)
    {
      ordersUpdated := 0;
      if Propagates(patch, oldLabel) {
        if fails1 {
          return;
        }
        SecondMatchesUnchanged(orders, oldLabel.value, patch.newLabel.value);
        var r1 := UpdateField(Provider, oldLabel.value, patch.newLabel.value);
        OnlyFieldsIff(old(orders), orders, Provider, oldLabel.value, patch.newLabel.value);
        ghost var between := orders;
        if fails2 {
          return;
        }
        var r2 := UpdateField(Carrier, oldLabel.value, patch.newLabel.value);
        OnlyFieldsIff(between, orders, Carrier, oldLabel.value, patch.newLabel.value);
        ordersUpdated := Max(r1, r2);
      }
    }
  }
}
