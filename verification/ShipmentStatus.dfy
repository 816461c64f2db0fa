/** The customer status of a shipment row and the tracking identity of an order row:
    two read-model expressions built on the order lifecycle, each with subqueries over
    whole tables. */
module ShipmentStatus {
  import opened Common
  import opened OrderLifecycle
  import opened Sql

  // -- Shipment status: the rendered SQL -----------------------------------------

  function SameOrderSql(): Expr {
    And(Eq(Col(O, OrderNumber), Col(Shipments, OrderNumber)), Eq(Col(O, ClientId), Col(Shipments, ClientId)))
  }

  function RankSql(): Expr {
    When(Is(EffectiveSql(O), "shipped"), Lit(Int(0)), Lit(Int(1)))
  }

  function FallbackSql(): Expr {
    FirstOrder(BucketSql(O), SameOrderSql(), RankSql())
  }

  function LinkedSql(): Expr {
    When(Not(IsNull(Col(Orders, Id))), BucketSql(Orders),
    When(IsNull(Col(Shipments, OrderId)), FallbackSql(),
    Lit(Null)))
  }

  /** The outer CASE over whatever expression yields the linked bucket. */
  function StatusOverSql(linked: Expr): Expr {
    When(Coalesce(Col(Shipments, Voided), Lit(Bool(false))), Text("voided"),
    When(Is(linked, "cancelled"), Text("cancelled"),
    When(Is(linked, "shipped"), Text("shipped"),
    When(Not(IsNull(linked)), Text("label_created"),
    Text("unavailable")))))
  }

  function StatusOfShipmentSql(): Expr {
    StatusOverSql(LinkedSql())
  }

  // -- Shipment status: what it means ----------------------------------------------

  /** The left join on orders.id = shipments.order_id. */
  predicate Joined(db: Database, s: ShipmentRow, order: Option<OrderRow>) {
    match order
    case Some(o) => o in db.orders && s.orderId == Some(o.id)
    case None => forall o :: o in db.orders ==> s.orderId != Some(o.id)
  }

  /** Same number within the same client; a NULL on either side never matches. */
  predicate SameOrder(s: ShipmentRow, o: OrderRow) {
    && s.orderNumber.Some? && o.orderNumber == s.orderNumber
    && s.clientId.Some? && o.clientId == s.clientId
  }

  predicate ShippedSibling(db: Database, s: ShipmentRow) {
    exists o :: o in db.orders && SameOrder(s, o) && ResolveBucket(o).Shipped?
  }

  predicate NewestSibling(db: Database, s: ShipmentRow, o: OrderRow) {
    && o in db.orders && SameOrder(s, o)
    && forall p :: p in db.orders && SameOrder(s, p) ==> p.id <= o.id
  }

  function CustomerWord(b: Bucket): string {
    match b
    case Cancelled => "cancelled"
    case Shipped => "shipped"
    case Pending => "label_created"
  }

  /** What a customer reads on a shipment row, without any evaluation order. */
  ghost predicate Reads(db: Database, s: ShipmentRow, joined: Option<OrderRow>, word: string) {
    if s.voided == Some(true) then word == "voided"
    else if joined.Some? then word == CustomerWord(ResolveBucket(joined.value))
    else if s.orderId.Some? then word == "unavailable"
    else if ShippedSibling(db, s) then word == "shipped"
    else if exists o :: o in db.orders && SameOrder(s, o)
    then exists o :: NewestSibling(db, s, o) && word == CustomerWord(ResolveBucket(o))
    else word == "unavailable"
  }

  // -- Shipment status: proof ---------------------------------------------------------

  lemma {:induction false} EvalSameOrder(env: Env, s: ShipmentRow, o: OrderRow)
    requires env.shipments == Some(s) && env.o == Some(o)
    ensures (Eval(SameOrderSql(), env) == Bool(true)) <==> SameOrder(s, o)
  {
    var number := Eq(Col(O, OrderNumber), Col(Shipments, OrderNumber));
    assert Eval(Col(O, OrderNumber), env) == FromStr(o.orderNumber);
    assert Eval(Col(Shipments, OrderNumber), env) == FromStr(s.orderNumber);
    assert Eval(number, env) == Equal(FromStr(o.orderNumber), FromStr(s.orderNumber));
    var client := Eq(Col(O, ClientId), Col(Shipments, ClientId));
    assert Eval(Col(O, ClientId), env) == FromInt(o.clientId);
    assert Eval(Col(Shipments, ClientId), env) == FromInt(s.clientId);
    assert Eval(client, env) == Equal(FromInt(o.clientId), FromInt(s.clientId));
  }

  lemma {:induction false} EvalRank(env: Env, o: OrderRow)
    requires env.o == Some(o)
    ensures Eval(RankSql(), env) == Int(if ResolveBucket(o).Shipped? then 0 else 1)
  {
    EffectiveSqlIsResolver(O, env, o);
    EvalIs(EffectiveSql(O), "shipped", env, EffectiveOf(o));
    assert |"shipped"| != |"cancelled"|;
  }

  function FallbackPick(env: Env): Option<OrderRow> {
    BestOrder(FallbackSql(), env, |env.db.orders|)
  }

  lemma {:induction false} FallbackRowMeans(env: Env, s: ShipmentRow, o: OrderRow)
    requires env.shipments == Some(s) && o in env.db.orders
    ensures OrderHit(FallbackSql(), env, o) <==> SameOrder(s, o)
    ensures Eval(FallbackSql().rank, env.(o := Some(o))) == Int(if ResolveBucket(o).Shipped? then 0 else 1)
  {
    EvalSameOrder(env.(o := Some(o)), s, o);
    EvalRank(env.(o := Some(o)), o);
  }

  /** Among siblings the pick is first: nobody has a smaller rank, nor the same rank and a larger id. */
  lemma {:induction false} FallbackPickIsFirst(env: Env, s: ShipmentRow)
    requires env.shipments == Some(s)
    ensures var pick := FallbackPick(env);
            && (pick.Some? ==> pick.value in env.db.orders && SameOrder(s, pick.value))
            && forall o :: o in env.db.orders && SameOrder(s, o) ==>
                 && pick.Some?
                 && (ResolveBucket(o).Shipped? ==> ResolveBucket(pick.value).Shipped?)
                 && (ResolveBucket(o).Shipped? == ResolveBucket(pick.value).Shipped? ==> o.id <= pick.value.id)
  {
    var e, n := FallbackSql(), |env.db.orders|;
    assert env.db.orders[..n] == env.db.orders;
    BestOrderIsFirstHit(e, env, n);
    var pick := FallbackPick(env);
    if pick.Some? {
      FallbackRowMeans(env, s, pick.value);
    }
    forall o | o in env.db.orders && SameOrder(s, o)
      ensures pick.Some?
      ensures ResolveBucket(o).Shipped? ==> ResolveBucket(pick.value).Shipped?
      ensures ResolveBucket(o).Shipped? == ResolveBucket(pick.value).Shipped? ==> o.id <= pick.value.id
    {
      FallbackRowMeans(env, s, o);
    }
  }

  lemma {:induction false} EvalFallback(env: Env, s: ShipmentRow)
    requires env.shipments == Some(s)
    ensures var pick := FallbackPick(env);
            Eval(FallbackSql(), env) == if pick.None? then Null else Str(BucketName(ResolveBucket(pick.value)))
  {
    var pick := FallbackPick(env);
    if pick.Some? {
      BucketSqlIsResolver(O, env.(o := pick), pick.value);
    }
  }

  function LinkedBucket(env: Env, s: ShipmentRow): Option<Bucket> {
    if env.orders.Some? then Some(ResolveBucket(env.orders.value))
    else if s.orderId.Some? then None
    else var pick := FallbackPick(env);
      if pick.None? then None else Some(ResolveBucket(pick.value))
  }

  lemma {:induction false} EvalLinked(env: Env, s: ShipmentRow)
    requires env.shipments == Some(s)
    ensures var bucket := LinkedBucket(env, s);
            Eval(LinkedSql(), env) == if bucket.None? then Null else Str(BucketName(bucket.value))
  {
    var idNull, orphan := IsNull(Col(Orders, Id)), IsNull(Col(Shipments, OrderId));
    assert Eval(Col(Orders, Id), env) == if env.orders.None? then Null else Int(env.orders.value.id);
    assert Eval(idNull, env) == Bool(env.orders.None?);
    assert Eval(Not(idNull), env) == Bool(env.orders.Some?);
    assert Eval(Col(Shipments, OrderId), env) == FromInt(s.orderId);
    assert Eval(orphan, env) == Bool(s.orderId.None?);
    var inner := When(orphan, FallbackSql(), Lit(Null));
    assert Eval(Lit(Null), env) == Null;
    assert Eval(inner, env) == if s.orderId.None? then Eval(FallbackSql(), env) else Null;
    EvalFallback(env, s);
    if env.orders.Some? {
      BucketSqlIsResolver(Orders, env, env.orders.value);
    }
  }

  lemma {:induction false} EvalIsBucket(env: Env, linked: Expr, bucket: Option<Bucket>, b: Bucket)
    requires Eval(linked, env) == if bucket.None? then Null else Str(BucketName(bucket.value))
    ensures (Eval(Is(linked, BucketName(b)), env) == Bool(true)) <==> bucket == Some(b)
  {
    var name := Text(BucketName(b));
    assert Eval(name, env) == Str(BucketName(b));
    assert Eval(Is(linked, BucketName(b)), env) == Equal(Eval(linked, env), Str(BucketName(b)));
    assert |"shipped"| == 7 && |"cancelled"| == 9 && |"pending"| == 7;
    assert "pending"[0] == 'p' && "shipped"[0] == 's';
  }

  lemma {:induction false} EvalStatusOver(env: Env, s: ShipmentRow, linked: Expr, bucket: Option<Bucket>)
    requires env.shipments == Some(s)
    requires Eval(linked, env) == if bucket.None? then Null else Str(BucketName(bucket.value))
    ensures Eval(StatusOverSql(linked), env)
         == Str(if s.voided == Some(true) then "voided"
                else if bucket.None? then "unavailable" else CustomerWord(bucket.value))
  {
    EvalIsBucket(env, linked, bucket, Cancelled);
    EvalIsBucket(env, linked, bucket, Shipped);
    var voided := Coalesce(Col(Shipments, Voided), Lit(Bool(false)));
    assert Eval(Col(Shipments, Voided), env) == FromBool(s.voided);
    assert Eval(voided, env) == Bool(s.voided == Some(true));
    assert Eval(IsNull(linked), env) == Bool(bucket.None?);
    var linkable := Not(IsNull(linked));
    assert Eval(linkable, env) == Bool(bucket.Some?);
    var e3 := When(linkable, Text("label_created"), Text("unavailable"));
    assert Eval(e3, env) == Str(if bucket.Some? then "label_created" else "unavailable");
    var e2 := When(Is(linked, "shipped"), Text("shipped"), e3);
    assert Eval(e2, env) == if bucket == Some(Shipped) then Str("shipped") else Eval(e3, env);
    var e1 := When(Is(linked, "cancelled"), Text("cancelled"), e2);
    assert Eval(e1, env) == if bucket == Some(Cancelled) then Str("cancelled") else Eval(e2, env);
  }

  lemma {:induction false} LinkedBucketReads(env: Env, s: ShipmentRow)
    requires env.shipments == Some(s) && s.voided != Some(true)
    ensures var bucket := LinkedBucket(env, s);
            Reads(env.db, s, env.orders, if bucket.None? then "unavailable" else CustomerWord(bucket.value))
  {
    FallbackPickIsFirst(env, s);
    var pick := FallbackPick(env);
    if env.orders.None? && s.orderId.None? && pick.Some? && !ShippedSibling(env.db, s) {
      assert NewestSibling(env.db, s, pick.value);
    }
  }

  /** For all tables: the projected status is one of the five words, and the right one. */
  lemma {:induction false} ShipmentStatusReads(env: Env, s: ShipmentRow)
    requires env.shipments == Some(s)
    ensures var v := Eval(StatusOfShipmentSql(), env);
            && v.Str?
            && v.s in {"voided", "cancelled", "shipped", "label_created", "unavailable"}
            && Reads(env.db, s, env.orders, v.s)
  {
    EvalLinked(env, s);
    EvalStatusOver(env, s, LinkedSql(), LinkedBucket(env, s));
    if s.voided != Some(true) {
      LinkedBucketReads(env, s);
    }
  }

  /** The meaning fixes the word, so the status does not depend on how rows are stored. */
  lemma {:induction false} ReadsIsFunctional(db: Database, s: ShipmentRow, joined: Option<OrderRow>,
                                             a: string, b: string)
    requires UniqueOrderIds(db)
    requires Reads(db, s, joined, a) && Reads(db, s, joined, b)
    ensures a == b
  {
  }

  ghost predicate SameOwnOrders(client: Option<int>, db1: Database, db2: Database) {
    forall o: OrderRow :: o.clientId == client ==> (o in db1.orders <==> o in db2.orders)
  }

  /** Tenant isolation: orders of other clients never change the status, as long as the join itself
      did not cross clients (the join is on the order id alone). */
  lemma {:induction false} OtherClientsDoNotMatter(env1: Env, env2: Env, s: ShipmentRow)
    requires env1.shipments == env2.shipments == Some(s)
    requires UniqueOrderIds(env1.db) && UniqueOrderIds(env2.db)
    requires SameOwnOrders(s.clientId, env1.db, env2.db)
    requires Joined(env1.db, s, env1.orders) && Joined(env2.db, s, env2.orders)
    requires env1.orders.Some? ==> env1.orders.value.clientId == s.clientId
    requires env2.orders.Some? ==> env2.orders.value.clientId == s.clientId
    ensures Eval(StatusOfShipmentSql(), env1) == Eval(StatusOfShipmentSql(), env2)
  {
    ShipmentStatusReads(env1, s);
    ShipmentStatusReads(env2, s);
    var word1, word2 := Eval(StatusOfShipmentSql(), env1).s, Eval(StatusOfShipmentSql(), env2).s;
    assert env1.orders == env2.orders;
    assert forall o :: SameOrder(s, o) ==> (o in env1.db.orders <==> o in env2.db.orders);
    assert ShippedSibling(env1.db, s) <==> ShippedSibling(env2.db, s);
    assert forall o :: NewestSibling(env1.db, s, o) <==> NewestSibling(env2.db, s, o);
    assert Reads(env2.db, s, env2.orders, word1);
    ReadsIsFunctional(env2.db, s, env2.orders, word1, word2);
  }

  /** The shipment is read in a database with the same orders of its own client as db. */
  ghost predicate Views(env: Env, db: Database, s: ShipmentRow) {
    && env.shipments == Some(s) && UniqueOrderIds(env.db)
    && SameOwnOrders(s.clientId, db, env.db) && Joined(env.db, s, env.orders)
  }

  /** Orders of other clients, there or not, make no difference to the status. */
  ghost predicate Isolated(db: Database, s: ShipmentRow) {
    forall env1, env2 :: Views(env1, db, s) && Views(env2, db, s)
      ==> Eval(StatusOfShipmentSql(), env1) == Eval(StatusOfShipmentSql(), env2)
  }

  predicate OwnOrderLinked(db: Database, s: ShipmentRow) {
    exists o :: o in db.orders && o.clientId == s.clientId && s.orderId == Some(o.id)
  }

  function OwnOrders(orders: seq<OrderRow>, client: Option<int>): (r: seq<OrderRow>)
    ensures forall o :: o in r <==> o in orders && o.clientId == client
  {
    if orders == [] then []
    else OwnOrders(orders[..|orders| - 1], client)
         + (if orders[|orders| - 1].clientId == client then [orders[|orders| - 1]] else [])
  }

  /** Some order of another client. */
  function Foreign(id: int, client: Option<int>): (o: OrderRow)
    ensures o.id == id && o.clientId != client
  {
    OrderRow(id, Some(if client.None? then 0 else client.value + 1), None, None, None, None, None)
  }

  /** A shipment linked to an id that no order of its client has: whether some other client has an
      order of that id decides between two statuses. */
  lemma {:induction false} ForeignJoinDecides(db: Database, s: ShipmentRow) returns (without: Env, with: Env)
    requires UniqueOrderIds(db)
    requires s.voided != Some(true) && s.orderId.Some? && !OwnOrderLinked(db, s)
    ensures Views(without, db, s) && Eval(StatusOfShipmentSql(), without) == Str("unavailable")
    ensures Views(with, db, s) && Eval(StatusOfShipmentSql(), with) == Str("label_created")
  {
    var own, foreign := OwnOrders(db.orders, s.clientId), Foreign(s.orderId.value, s.clientId);
    without := Env(Database(own, []), None, Some(s), None, None);
    with := Env(Database(own + [foreign], []), Some(foreign), Some(s), None, None);
    ShipmentStatusReads(without, s);
    ShipmentStatusReads(with, s);
    assert ResolveBucket(foreign) == Pending;
  }

  /** Tenant isolation, exactly: the status depends on nothing but the client's own orders if and only
      if the shipment is voided, or not linked, or linked to an order of its own client. */
  lemma {:induction false} IsolatedIff(db: Database, s: ShipmentRow)
    requires UniqueOrderIds(db)
    ensures Isolated(db, s) <==> s.voided == Some(true) || s.orderId.None? || OwnOrderLinked(db, s)
  {
    if s.voided == Some(true) || s.orderId.None? || OwnOrderLinked(db, s) {
      forall env1, env2 | Views(env1, db, s) && Views(env2, db, s)
        ensures Eval(StatusOfShipmentSql(), env1) == Eval(StatusOfShipmentSql(), env2)
      {
        if s.voided == Some(true) {
          ShipmentStatusReads(env1, s);
          ShipmentStatusReads(env2, s);
        } else {
          OtherClientsDoNotMatter(env1, env2, s);
        }
      }
    } else {
      var without, with := ForeignJoinDecides(db, s);
      assert Views(without, db, s) && Views(with, db, s);
    }
  }

  // -- The tracking identity of an order ------------------------------------------------

  function NonBlankSql(c: Column): Expr {
    NullIf(Trim(Col(S, c)), Text(""))
  }

  function TrackingSql(): Expr {
    Coalesce(NonBlankSql(LabelTracking), NonBlankSql(TrackingNumber))
  }

  function CarrierSql(): Expr {
    Coalesce(NonBlankSql(LabelCarrier), NonBlankSql(CarrierCode))
  }

  function TrackedSql(): Expr {
    And(And(MatchSql(), IsFalse(Col(S, Voided))), Not(IsNull(TrackingSql())))
  }

  /** The earlier projection: two scalar subqueries over the same rows. */
  function OldTrackingSql(): Expr {
    FirstShipment(TrackingSql(), TrackedSql())
  }

  function OldCarrierSql(): Expr {
    FirstShipment(CarrierSql(), TrackedSql())
  }

  /** The current projection: one subquery returning both. */
  function IdentitySql(): Expr {
    FirstShipment(BuildPair(TrackingSql(), CarrierSql()), TrackedSql())
  }

  predicate NonBlank(o: Option<string>) {
    o.Some? && exists i :: 0 <= i < |o.value| && o.value[i] != ' '
  }

  /** A live outbound shipment of the order that carries a tracking number. */
  predicate Tracked(order: OrderRow, s: ShipmentRow) {
    && Matches(order, s) && s.voided != Some(true)
    && (NonBlank(s.labelTracking) || NonBlank(s.trackingNumber))
  }

  lemma {:induction false} TrimLeftBlank(s: string)
    ensures TrimLeft(s) == "" <==> (forall i :: 0 <= i < |s| ==> s[i] == ' ')
    ensures TrimLeft(s) != "" ==> TrimLeft(s)[0] != ' '
  {
    if s != [] && s[0] == ' ' {
      TrimLeftBlank(s[1..]);
      assert forall i :: 0 < i < |s| ==> s[i] == s[1..][i - 1];
    }
  }

  lemma {:induction false} TrimRightKeepsInk(s: string)
    requires s != "" && s[0] != ' '
    ensures TrimRight(s) != ""
  {
    if s[|s| - 1] == ' ' {
      TrimRightKeepsInk(s[..|s| - 1]);
    }
  }

  lemma {:induction false} EvalNonBlank(env: Env, s: ShipmentRow, c: Column, text: Option<string>)
    requires env.s == Some(s) && ShipmentColumn(env.s, c) == FromStr(text)
    ensures Eval(NonBlankSql(c), env) == Null <==> !NonBlank(text)
    ensures Eval(NonBlankSql(c), env) != Null ==> Eval(NonBlankSql(c), env).Str?
  {
    assert Eval(Col(S, c), env) == FromStr(text);
    assert Eval(Text(""), env) == Str("");
    if text.Some? {
      assert Eval(Trim(Col(S, c)), env) == Str(TrimRight(TrimLeft(text.value)));
      TrimLeftBlank(text.value);
      if TrimLeft(text.value) == "" {
        assert TrimRight("") == "";
      } else {
        TrimRightKeepsInk(TrimLeft(text.value));
      }
    }
  }

  lemma {:induction false} EvalTrackingText(env: Env, s: ShipmentRow)
    requires env.s == Some(s)
    ensures Eval(TrackingSql(), env) != Null <==> NonBlank(s.labelTracking) || NonBlank(s.trackingNumber)
    ensures Eval(TrackingSql(), env) != Null ==> Eval(TrackingSql(), env).Str?
  {
    EvalNonBlank(env, s, LabelTracking, s.labelTracking);
    EvalNonBlank(env, s, TrackingNumber, s.trackingNumber);
    var first, second := NonBlankSql(LabelTracking), NonBlankSql(TrackingNumber);
    assert Eval(Coalesce(first, second), env) == if Eval(first, env) != Null then Eval(first, env) else Eval(second, env);
  }

  lemma {:induction false} EvalLiveAnd(env: Env, live: Expr, text: Expr)
    ensures Eval(And(live, Not(IsNull(text))), env) == Bool(true)
       <==> Eval(live, env) == Bool(true) && Eval(text, env) != Null
  {
    assert Eval(IsNull(text), env) == Bool(Eval(text, env).Null?);
    assert Eval(Not(IsNull(text)), env) == Bool(!Eval(text, env).Null?);
    assert Eval(And(live, Not(IsNull(text))), env) == Conj(Eval(live, env), Eval(Not(IsNull(text)), env));
  }

  lemma {:induction false} EvalTracked(env: Env, order: OrderRow, s: ShipmentRow)
    requires env.orders == Some(order) && env.s == Some(s)
    ensures (Eval(TrackedSql(), env) == Bool(true)) <==> Tracked(order, s)
    ensures Tracked(order, s) ==> Eval(TrackingSql(), env).Str?
  {
    EvalSignalRow(env, order, s);
    EvalTrackingText(env, s);
    EvalLiveAnd(env, And(MatchSql(), IsFalse(Col(S, Voided))), TrackingSql());
  }

  /** Which row a LIMIT 1 subquery returns does not depend on what it selects from that row. */
  lemma {:induction false} SameWhereSamePick(a: Expr, b: Expr, env: Env, n: nat)
    requires a.FirstShipment? && b.FirstShipment? && a.where_ == b.where_
    requires n <= |env.db.shipments|
    ensures BestShipment(a, env, n) == BestShipment(b, env, n)
  {
    if n > 0 {
      SameWhereSamePick(a, b, env, n - 1);
    }
  }

  function LatestTracked(env: Env): Option<ShipmentRow> {
    BestShipment(IdentitySql(), env, |env.db.shipments|)
  }

  lemma {:induction false} LatestTrackedIsNewest(env: Env, order: OrderRow)
    requires env.orders == Some(order)
    ensures var best := LatestTracked(env);
            && (best.Some? ==> best.value in env.db.shipments && Tracked(order, best.value))
            && forall s :: s in env.db.shipments && Tracked(order, s) ==> best.Some? && s.id <= best.value.id
  {
    var e, n := IdentitySql(), |env.db.shipments|;
    assert env.db.shipments[..n] == env.db.shipments;
    BestShipmentIsNewestHit(e, env, n);
    forall s | s in env.db.shipments
      ensures ShipmentHit(e, env, s) <==> Tracked(order, s)
    {
      EvalTracked(env.(s := Some(s)), order, s);
    }
  }

  /** A fused lookup over any two expressions is the pair of the scalar lookups. */
  lemma {:induction false} FusedIsPair(tracking: Expr, carrier: Expr, where_: Expr, env: Env)
    ensures var fused, t, c := FirstShipment(BuildPair(tracking, carrier), where_),
                               FirstShipment(tracking, where_), FirstShipment(carrier, where_);
            var best := BestShipment(fused, env, |env.db.shipments|);
            if best.None? then Eval(fused, env) == Eval(t, env) == Eval(c, env) == Null
            else && Eval(fused, env) == Pair(Eval(t, env), Eval(c, env))
                 && Eval(t, env) == Eval(tracking, env.(s := best))
  {
    var fused, t, c := FirstShipment(BuildPair(tracking, carrier), where_),
                       FirstShipment(tracking, where_), FirstShipment(carrier, where_);
    SameWhereSamePick(fused, t, env, |env.db.shipments|);
    SameWhereSamePick(fused, c, env, |env.db.shipments|);
    var best := BestShipment(fused, env, |env.db.shipments|);
    if best.Some? {
      var row := env.(s := best);
      assert Eval(BuildPair(tracking, carrier), row) == Pair(Eval(tracking, row), Eval(carrier, row));
    }
  }

  /** One lookup gives what the two gave, a missing row standing for two nulls. */
  lemma {:induction false} FusedProjectionIsOldPair(env: Env, order: OrderRow)
    requires env.orders == Some(order)
    ensures var identity, tracking, carrier :=
              Eval(IdentitySql(), env), Eval(OldTrackingSql(), env), Eval(OldCarrierSql(), env);
            && (identity == Null <==> tracking == Null)
            && (identity == Null ==> carrier == Null)
            && (identity != Null ==> identity == Pair(tracking, carrier))
            && (identity == Null <==> !exists s :: s in env.db.shipments && Tracked(order, s))
  {
    FusedIsPair(TrackingSql(), CarrierSql(), TrackedSql(), env);
    LatestTrackedIsNewest(env, order);
    var best := LatestTracked(env);
    if best.Some? {
      EvalTracked(env.(s := best), order, best.value);
    }
  }

  ghost predicate SameTracked(order: OrderRow, db1: Database, db2: Database) {
    forall s :: Tracked(order, s) ==> (s in db1.shipments <==> s in db2.shipments)
  }

  /** Neither storage order nor any untracked row (voided, return, blank, another client's
      fallback) can change the projection. */
  lemma {:induction false} OnlyTrackedRowsMatter(env1: Env, env2: Env, order: OrderRow)
    requires env1.orders == env2.orders == Some(order)
    requires UniqueShipmentIds(env1.db) && UniqueShipmentIds(env2.db)
    requires SameTracked(order, env1.db, env2.db)
    ensures Eval(IdentitySql(), env1) == Eval(IdentitySql(), env2)
  {
    LatestTrackedIsNewest(env1, order);
    LatestTrackedIsNewest(env2, order);
    var best := LatestTracked(env1);
    assert best == LatestTracked(env2);
    if best.Some? {
      SameRowSameIdentity(env1.(s := best), env2.(s := best), best.value);
    }
  }

  lemma {:induction false} SameRowSameIdentity(env1: Env, env2: Env, s: ShipmentRow)
    requires env1.s == env2.s == Some(s)
    ensures Eval(BuildPair(TrackingSql(), CarrierSql()), env1)
         == Eval(BuildPair(TrackingSql(), CarrierSql()), env2)
  {
    SameRowSameText(env1, env2, LabelTracking);
    SameRowSameText(env1, env2, TrackingNumber);
    SameRowSameText(env1, env2, LabelCarrier);
    SameRowSameText(env1, env2, CarrierCode);
    assert Eval(TrackingSql(), env1) == Eval(TrackingSql(), env2);
    assert Eval(CarrierSql(), env1) == Eval(CarrierSql(), env2);
  }

  lemma {:induction false} SameRowSameText(env1: Env, env2: Env, c: Column)
    requires env1.s == env2.s
    ensures Eval(NonBlankSql(c), env1) == Eval(NonBlankSql(c), env2)
  {
    assert Eval(Col(S, c), env1) == Eval(Col(S, c), env2);
    assert Eval(Trim(Col(S, c)), env1) == Eval(Trim(Col(S, c)), env2);
    assert Eval(Text(""), env1) == Eval(Text(""), env2);
  }

  // -- What the identity shows ------------------------------------------------------------

  predicate Spaces(s: string) {
    forall i :: 0 <= i < |s| ==> s[i] == ' '
  }

  /** t is raw without its outer spaces, with ink at both ends. */
  ghost predicate Stripped(raw: string, t: string) {
    && t != "" && t[0] != ' ' && t[|t| - 1] != ' '
    && exists a, b :: Spaces(a) && Spaces(b) && raw == a + t + b
  }

  lemma {:induction false} TrimLeftSplits(s: string) returns (a: string)
    ensures s == a + TrimLeft(s) && Spaces(a)
  {
    a := "";
    if s != [] && s[0] == ' ' {
      a := TrimLeftSplits(s[1..]);
      a := " " + a;
      assert s == " " + s[1..];
    }
  }

  lemma {:induction false} TrimRightSplits(s: string) returns (b: string)
    ensures s == TrimRight(s) + b && Spaces(b)
    ensures TrimRight(s) != "" ==> TrimRight(s)[|TrimRight(s)| - 1] != ' '
  {
    b := "";
    if s != [] && s[|s| - 1] == ' ' {
      b := TrimRightSplits(s[..|s| - 1]);
      b := b + " ";
      assert s == s[..|s| - 1] + " ";
    }
  }

  lemma {:induction false} InkAtBothEnds(left: string)
    requires left != "" && left[0] != ' '
    ensures var t := TrimRight(left); t != "" && t[0] != ' ' && t[|t| - 1] != ' '
  {
    TrimRightKeepsInk(left);
    var b := TrimRightSplits(left);
    assert left[0] == (TrimRight(left) + b)[0];
  }

  lemma {:induction false} TrimStrips(s: string)
    requires NonBlank(Some(s))
    ensures Stripped(s, TrimRight(TrimLeft(s)))
  {
    TrimLeftBlank(s);
    InkAtBothEnds(TrimLeft(s));
    var a := TrimLeftSplits(s);
    var b := TrimRightSplits(TrimLeft(s));
    var t := TrimRight(TrimLeft(s));
    assert a + (t + b) == a + t + b;
  }

  lemma {:induction false} NonBlankShows(env: Env, s: ShipmentRow, c: Column, text: Option<string>)
    requires env.s == Some(s) && ShipmentColumn(env.s, c) == FromStr(text)
    ensures var v := Eval(NonBlankSql(c), env);
            if NonBlank(text) then v.Str? && Stripped(text.value, v.s) else v == Null
  {
    EvalNonBlank(env, s, c, text);
    if NonBlank(text) {
      TrimStrips(text.value);
      assert Eval(Col(S, c), env) == Str(text.value);
      assert Eval(Trim(Col(S, c)), env) == Str(TrimRight(TrimLeft(text.value)));
    }
  }

  /** The first text if it has ink, else the second if that has, without outer spaces; else nothing. */
  ghost predicate Shows(v: Value, first: Option<string>, second: Option<string>) {
    if NonBlank(first) then v.Str? && Stripped(first.value, v.s)
    else if NonBlank(second) then v.Str? && Stripped(second.value, v.s)
    else v == Null
  }

  lemma {:induction false} CoalesceShows(
    env: Env, s: ShipmentRow, c: Column, d: Column, first: Option<string>, second: Option<string>)
    requires env.s == Some(s)
    requires ShipmentColumn(env.s, c) == FromStr(first) && ShipmentColumn(env.s, d) == FromStr(second)
    ensures Shows(Eval(Coalesce(NonBlankSql(c), NonBlankSql(d)), env), first, second)
  {
    NonBlankShows(env, s, c, first);
    NonBlankShows(env, s, d, second);
  }

  lemma {:induction false} IdentityIsPair(env: Env, s: ShipmentRow)
    requires LatestTracked(env) == Some(s)
    ensures var row := env.(s := Some(s));
            Eval(IdentitySql(), env) == Pair(Eval(TrackingSql(), row), Eval(CarrierSql(), row))
  {
    var row := env.(s := Some(s));
    assert Eval(IdentitySql(), env) == Eval(BuildPair(TrackingSql(), CarrierSql()), row);
  }

  lemma {:induction false} PairShows(v: Value, t: Value, c: Value, s: ShipmentRow)
    requires v == Pair(t, c)
    requires Shows(t, s.labelTracking, s.trackingNumber) && Shows(c, s.labelCarrier, s.carrierCode)
    ensures IdentityOf(v, s)
  {}

  /** The label's number and carrier and, where the label has none, the shipment's own. */
  ghost predicate IdentityOf(v: Value, s: ShipmentRow) {
    && v.Pair?
    && Shows(v.tracking, s.labelTracking, s.trackingNumber)
    && Shows(v.carrier, s.labelCarrier, s.carrierCode)
  }

  lemma {:induction false} TrackingShows(env: Env, s: ShipmentRow)
    requires env.s == Some(s)
    ensures Shows(Eval(TrackingSql(), env), s.labelTracking, s.trackingNumber)
  {
    CoalesceShows(env, s, LabelTracking, TrackingNumber, s.labelTracking, s.trackingNumber);
  }

  lemma {:induction false} CarrierShows(env: Env, s: ShipmentRow)
    requires env.s == Some(s)
    ensures Shows(Eval(CarrierSql(), env), s.labelCarrier, s.carrierCode)
  {
    CoalesceShows(env, s, LabelCarrier, CarrierCode, s.labelCarrier, s.carrierCode);
  }

  /** What an order shows is the identity of its latest tracked shipment. */
  lemma {:induction false} IdentityShows(env: Env, s: ShipmentRow)
    requires LatestTracked(env) == Some(s)
    ensures IdentityOf(Eval(IdentitySql(), env), s)
  {
    var row := env.(s := Some(s));
    IdentityIsPair(env, s);
    TrackingShows(row, s);
    CarrierShows(row, s);
    PairShows(Eval(IdentitySql(), env), Eval(TrackingSql(), row), Eval(CarrierSql(), row), s);
  }
}
