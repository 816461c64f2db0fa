/** The effective order status, the customer bucket and the customer fulfillment status:
    each exists twice in the program, as SQL for lists and filters and as TypeScript for
    projection. The theorems say that the two forms never disagree. */
module OrderLifecycle {
  import opened Common
  import opened Sql

  // -- The TypeScript resolvers ----------------------------------------------

  datatype Bucket = Pending | Shipped | Cancelled

  datatype FulfillmentStatus = StatusPending | StatusShipped | StatusCancelled | StatusVoided

  datatype DisplayState = ActiveLabel | VoidedLabel | ExternalLabel | MissingShipmentSync

  function TextOr(o: Option<string>): string {
    if o.None? then "" else o.value
  }

  function ResolveEffective(orderStatus: Option<string>, canonicalStatus: Option<string>,
                            externallyShipped: Option<bool>): string
  {
    var os := ToLower(TextOr(orderStatus));
    var cs := ToLower(TextOr(canonicalStatus));
    if os == "cancelled" then "cancelled"
    else if cs == "cancelled" then "cancelled"
    else if os == "shipped" then "shipped"
    else if externallyShipped == Some(true) then "shipped"
    else if os == "" then "awaiting_shipment"
    else os
  }

  function EffectiveOf(row: OrderRow): string {
    ResolveEffective(row.orderStatus, row.canonicalStatus, row.externallyShipped)
  }

  function ResolveBucket(row: OrderRow): Bucket {
    var effective := EffectiveOf(row);
    if effective == "cancelled" then Cancelled
    else if effective == "shipped" then Shipped
    else Pending
  }

  function BucketName(b: Bucket): string {
    match b
    case Pending => "pending"
    case Shipped => "shipped"
    case Cancelled => "cancelled"
  }

  function ResolveDisplayState(externallyShipped: bool, externallyFulfilled: Option<bool>,
                               hasActive: bool, hasExternal: bool, hasVoided: bool): DisplayState
  {
    if hasActive && hasExternal then ExternalLabel
    else if hasActive then ActiveLabel
    else if hasVoided && externallyFulfilled != Some(true) then VoidedLabel
    else if externallyFulfilled == Some(true) || externallyShipped then ExternalLabel
    else MissingShipmentSync
  }

  /** Only a real JSON boolean counts; anything else reads as null and never throws. */
  function RawExternallyFulfilled(raw: Option<Json>): Option<bool> {
    if raw.None? || !raw.value.JsonObject? then None
    else if "externallyFulfilled" !in raw.value.fields then None
    else match raw.value.fields["externallyFulfilled"]
      case JsonBool(b) => Some(b)
      case _ => None
  }

  function ResolveStatus(row: OrderRow, hasActive: bool, hasVoided: bool): FulfillmentStatus {
    match ResolveBucket(row)
    case Cancelled => StatusCancelled
    case Pending => StatusPending
    case Shipped =>
      var cs := ToLower(TextOr(row.canonicalStatus));
      if ToLower(TextOr(row.orderStatus)) != "shipped" then StatusShipped
      else if cs == "confirmation_failed" || cs == "shipped_pending_confirmation" then StatusShipped
      else if ResolveDisplayState(row.externallyShipped == Some(true), RawExternallyFulfilled(row.raw),
                                  hasActive, false, hasVoided).VoidedLabel? then StatusVoided
      else StatusShipped
  }

  function StatusName(s: FulfillmentStatus): string {
    match s
    case StatusPending => "pending"
    case StatusShipped => "shipped"
    case StatusCancelled => "cancelled"
    case StatusVoided => "voided"
  }

  // -- The rendered SQL --------------------------------------------------------

  function Text(s: string): Expr {
    Lit(Str(s))
  }

  function Is(e: Expr, s: string): Expr {
    Eq(e, Text(s))
  }

  function LowerOrEmpty(t: Alias, c: Column): Expr {
    Lower(Coalesce(Col(t, c), Text("")))
  }

  function IsTrue(e: Expr): Expr {
    Eq(Coalesce(e, Lit(Bool(false))), Lit(Bool(true)))
  }

  function IsFalse(e: Expr): Expr {
    Eq(Coalesce(e, Lit(Bool(false))), Lit(Bool(false)))
  }

  function EffectiveSql(t: Alias): Expr {
    When(Is(LowerOrEmpty(t, OrderStatus), "cancelled"), Text("cancelled"),
    When(Is(LowerOrEmpty(t, CanonicalStatus), "cancelled"), Text("cancelled"),
    When(Is(LowerOrEmpty(t, OrderStatus), "shipped"), Text("shipped"),
    When(IsTrue(Col(t, ExternallyShipped)), Text("shipped"),
    Coalesce(NullIf(Lower(Col(t, OrderStatus)), Text("")), Text("awaiting_shipment"))))))
  }

  function BucketSql(t: Alias): Expr {
    When(Is(EffectiveSql(t), "cancelled"), Text("cancelled"),
    When(Is(EffectiveSql(t), "shipped"), Text("shipped"),
    Text("pending")))
  }

  /** A tab filters on the inner CASE; NOT IN is the negated disjunction of equalities. */
  function TabSql(t: Alias, b: Bucket): Expr {
    match b
    case Shipped => Is(EffectiveSql(t), "shipped")
    case Cancelled => Is(EffectiveSql(t), "cancelled")
    case Pending => Not(Or(Is(EffectiveSql(t), "shipped"), Is(EffectiveSql(t), "cancelled")))
  }

  function MatchSql(): Expr {
    And(Or(Eq(Col(S, OrderId), Col(Orders, Id)),
           And(And(IsNull(Col(S, OrderId)), Eq(Col(S, OrderNumber), Col(Orders, OrderNumber))),
               Eq(Col(S, ClientId), Col(Orders, ClientId)))),
        IsFalse(Col(S, IsReturn)))
  }

  function HasActiveSql(): Expr {
    ExistsShipment(And(MatchSql(), IsFalse(Col(S, Voided))))
  }

  function HasVoidedSql(): Expr {
    ExistsShipment(And(MatchSql(), IsTrue(Col(S, Voided))))
  }

  function FulfilledFlag(): Expr {
    JsonField(Col(Orders, Raw), "externallyFulfilled")
  }

  /** jsonb_typeof(...) = 'boolean' and (...)::text = 'true', without the coalesce around it */
  function BareFulfilledTrueSql(): Expr {
    And(Is(JsonTypeof(FulfilledFlag()), "boolean"), Is(JsonText(FulfilledFlag()), "true"))
  }

  function FulfilledTrueSql(): Expr {
    Coalesce(BareFulfilledTrueSql(), Lit(Bool(false)))
  }

  function SignalArms(active: Expr, voided: Expr, fulfilledTrue: Expr): Expr {
    When(active, Text("shipped"),
    When(And(voided, Not(fulfilledTrue)), Text("voided"),
    Text("shipped")))
  }

  function ShippedArmSql(fulfilledTrue: Expr): Expr {
    When(Ne(LowerOrEmpty(Orders, OrderStatus), Text("shipped")), Text("shipped"),
    When(Or(Is(LowerOrEmpty(Orders, CanonicalStatus), "confirmation_failed"),
            Is(LowerOrEmpty(Orders, CanonicalStatus), "shipped_pending_confirmation")), Text("shipped"),
    SignalArms(HasActiveSql(), HasVoidedSql(), fulfilledTrue)))
  }

  function StatusSqlOver(fulfilledTrue: Expr): Expr {
    When(Is(EffectiveSql(Orders), "cancelled"), Text("cancelled"),
    When(Is(EffectiveSql(Orders), "shipped"), ShippedArmSql(fulfilledTrue),
    Text("pending")))
  }

  function StatusSql(): Expr {
    StatusSqlOver(FulfilledTrueSql())
  }

  // -- What the shipment signals mean -------------------------------------------

  /** The outbound shipments of an order: by order id, or by number within one client. */
  predicate Matches(order: OrderRow, s: ShipmentRow) {
    && s.isReturn != Some(true)
    && (s.orderId == Some(order.id)
        || (s.orderId.None? && s.orderNumber.Some? && s.orderNumber == order.orderNumber
            && s.clientId.Some? && s.clientId == order.clientId))
  }

  predicate HasActive(db: Database, order: OrderRow) {
    exists s :: s in db.shipments && Matches(order, s) && s.voided != Some(true)
  }

  predicate HasVoided(db: Database, order: OrderRow) {
    exists s :: s in db.shipments && Matches(order, s) && s.voided == Some(true)
  }

  // -- Evaluating the templates ----------------------------------------------------

  function OrderAt(env: Env, t: Alias): Option<OrderRow> {
    match t
    case Orders => env.orders
    case O => env.o
    case _ => None
  }

  predicate Bound(env: Env, t: Alias, row: OrderRow) {
    (t == Orders || t == O) && OrderAt(env, t) == Some(row)
  }

  lemma {:induction false} EvalLowerOrEmpty(t: Alias, c: Column, env: Env, text: Option<string>)
    requires ColumnOf(env, t, c) == FromStr(text)
    ensures Eval(LowerOrEmpty(t, c), env) == Str(ToLower(TextOr(text)))
  {
    var col := Col(t, c);
    assert Eval(col, env) == FromStr(text);
    assert Eval(Coalesce(col, Text("")), env) == Str(TextOr(text));
  }

  lemma {:induction false} EvalIs(e: Expr, s: string, env: Env, v: string)
    requires Eval(e, env) == Str(v)
    ensures Eval(Is(e, s), env) == Bool(v == s)
  {
    assert Eval(Text(s), env) == Str(s);
  }

  lemma {:induction false} EvalFlag(e: Expr, env: Env, flag: Option<bool>)
    requires Eval(e, env) == FromBool(flag)
    ensures Eval(IsTrue(e), env) == Bool(flag == Some(true))
    ensures Eval(IsFalse(e), env) == Bool(flag != Some(true))
  {
    var off := Lit(Bool(false));
    assert Eval(Coalesce(e, off), env) == Bool(flag == Some(true));
  }

  lemma {:induction false} EvalElseArm(t: Alias, env: Env, row: OrderRow)
    requires Bound(env, t, row)
    ensures var os := ToLower(TextOr(row.orderStatus));
            Eval(Coalesce(NullIf(Lower(Col(t, OrderStatus)), Text("")), Text("awaiting_shipment")), env)
            == Str(if os == "" then "awaiting_shipment" else os)
  {
    var col := Col(t, OrderStatus);
    assert Eval(col, env) == FromStr(row.orderStatus);
    var low := Lower(col);
    assert Eval(low, env) == if row.orderStatus.None? then Null else Str(ToLower(row.orderStatus.value));
    assert Eval(Text(""), env) == Str("");
    assert ToLower("") == "";
    var nul := NullIf(low, Text(""));
    assert Eval(nul, env) ==
      if ToLower(TextOr(row.orderStatus)) == "" then Null else Str(ToLower(TextOr(row.orderStatus)));
  }

  /** The CASE, through the table and through the alias, is the resolver: it is never NULL. */
  lemma {:induction false} EffectiveSqlIsResolver(t: Alias, env: Env, row: OrderRow)
    requires Bound(env, t, row)
    ensures Eval(EffectiveSql(t), env) == Str(EffectiveOf(row))
  {
    var os, cs := ToLower(TextOr(row.orderStatus)), ToLower(TextOr(row.canonicalStatus));
    var localText, upstreamText := LowerOrEmpty(t, OrderStatus), LowerOrEmpty(t, CanonicalStatus);
    EvalLowerOrEmpty(t, OrderStatus, env, row.orderStatus);
    EvalLowerOrEmpty(t, CanonicalStatus, env, row.canonicalStatus);
    EvalIs(localText, "cancelled", env, os);
    EvalIs(upstreamText, "cancelled", env, cs);
    EvalIs(localText, "shipped", env, os);
    EvalFlag(Col(t, ExternallyShipped), env, row.externallyShipped);
    EvalElseArm(t, env, row);
    var e4 := Coalesce(NullIf(Lower(Col(t, OrderStatus)), Text("")), Text("awaiting_shipment"));
    var e3 := When(IsTrue(Col(t, ExternallyShipped)), Text("shipped"), e4);
    var e2 := When(Is(localText, "shipped"), Text("shipped"), e3);
    var e1 := When(Is(upstreamText, "cancelled"), Text("cancelled"), e2);
    assert Eval(e3, env) == if row.externallyShipped == Some(true) then Str("shipped") else Eval(e4, env);
    assert Eval(e2, env) == if os == "shipped" then Str("shipped") else Eval(e3, env);
    assert Eval(e1, env) == if cs == "cancelled" then Str("cancelled") else Eval(e2, env);
    assert EffectiveSql(t) == When(Is(localText, "cancelled"), Text("cancelled"), e1);
  }

  lemma {:induction false} BucketSqlIsResolver(t: Alias, env: Env, row: OrderRow)
    requires Bound(env, t, row)
    ensures Eval(BucketSql(t), env) == Str(BucketName(ResolveBucket(row)))
  {
    EffectiveSqlIsResolver(t, env, row);
    EvalIs(EffectiveSql(t), "cancelled", env, EffectiveOf(row));
    EvalIs(EffectiveSql(t), "shipped", env, EffectiveOf(row));
    var inner := When(Is(EffectiveSql(t), "shipped"), Text("shipped"), Text("pending"));
    assert Eval(inner, env) == Str(if EffectiveOf(row) == "shipped" then "shipped" else "pending");
  }

  /** Every order is in exactly one tab, the tab of its own badge; no tab predicate is NULL. */
  lemma {:induction false} TabsPartitionOrders(t: Alias, env: Env, row: OrderRow, b: Bucket)
    requires Bound(env, t, row)
    ensures Eval(TabSql(t, b), env) == Bool(b == ResolveBucket(row))
  {
    EffectiveSqlIsResolver(t, env, row);
    var shipped, cancelled := Is(EffectiveSql(t), "shipped"), Is(EffectiveSql(t), "cancelled");
    EvalIs(EffectiveSql(t), "shipped", env, EffectiveOf(row));
    EvalIs(EffectiveSql(t), "cancelled", env, EffectiveOf(row));
    assert Eval(Or(shipped, cancelled), env)
        == Bool(EffectiveOf(row) == "shipped" || EffectiveOf(row) == "cancelled");
  }

  // -- The shipment signals ---------------------------------------------------------

  lemma {:induction false} EvalEqualColumns(a: Alias, b: Alias, ca: Column, cb: Column, env: Env)
    ensures Eval(Eq(Col(a, ca), Col(b, cb)), env) == Equal(ColumnOf(env, a, ca), ColumnOf(env, b, cb))
  {
    assert Eval(Col(a, ca), env) == ColumnOf(env, a, ca);
    assert Eval(Col(b, cb), env) == ColumnOf(env, b, cb);
  }

  lemma {:induction false} EvalConnectives(byId: Expr, orphan: Expr, number: Expr, client: Expr,
                                           outbound: Expr, env: Env)
    ensures Eval(And(Or(byId, And(And(orphan, number), client)), outbound), env)
         == Conj(Disj(Eval(byId, env), Conj(Conj(Eval(orphan, env), Eval(number, env)), Eval(client, env))),
                 Eval(outbound, env))
  {
    assert Eval(And(orphan, number), env) == Conj(Eval(orphan, env), Eval(number, env));
    assert Eval(And(And(orphan, number), client), env) == Conj(Eval(And(orphan, number), env), Eval(client, env));
  }

  lemma {:induction false} EvalMatch(env: Env, order: OrderRow, s: ShipmentRow)
    requires env.orders == Some(order) && env.s == Some(s)
    ensures (Eval(MatchSql(), env) == Bool(true)) <==> Matches(order, s)
  {
    EvalEqualColumns(S, Orders, OrderId, Id, env);
    EvalEqualColumns(S, Orders, OrderNumber, OrderNumber, env);
    EvalEqualColumns(S, Orders, ClientId, ClientId, env);
    assert Eval(IsNull(Col(S, OrderId)), env) == Bool(s.orderId.None?);
    EvalFlag(Col(S, IsReturn), env, s.isReturn);
    EvalConnectives(Eq(Col(S, OrderId), Col(Orders, Id)), IsNull(Col(S, OrderId)),
                    Eq(Col(S, OrderNumber), Col(Orders, OrderNumber)),
                    Eq(Col(S, ClientId), Col(Orders, ClientId)), IsFalse(Col(S, IsReturn)), env);
  }

  /** A row counts for the active (voided) signal exactly when it matches and is not (is) voided. */
  lemma {:induction false} EvalSignalRow(env: Env, order: OrderRow, s: ShipmentRow)
    requires env.orders == Some(order) && env.s == Some(s)
    ensures (Eval(And(MatchSql(), IsFalse(Col(S, Voided))), env) == Bool(true))
        <==> Matches(order, s) && s.voided != Some(true)
    ensures (Eval(And(MatchSql(), IsTrue(Col(S, Voided))), env) == Bool(true))
        <==> Matches(order, s) && s.voided == Some(true)
  {
    EvalMatch(env, order, s);
    EvalFlag(Col(S, Voided), env, s.voided);
    assert Eval(And(MatchSql(), IsFalse(Col(S, Voided))), env)
        == Conj(Eval(MatchSql(), env), Eval(IsFalse(Col(S, Voided)), env));
    assert Eval(And(MatchSql(), IsTrue(Col(S, Voided))), env)
        == Conj(Eval(MatchSql(), env), Eval(IsTrue(Col(S, Voided)), env));
  }

  /** EXISTS is true exactly when some stored row satisfies its condition. */
  lemma {:induction false} EvalExists(e: Expr, env: Env)
    requires e.ExistsShipment?
    ensures Eval(e, env) == Bool(exists s :: s in env.db.shipments && ShipmentHit(e, env, s))
  {
    var n := |env.db.shipments|;
    assert env.db.shipments[..n] == env.db.shipments;
    BestShipmentIsNewestHit(e, env, n);
  }

  lemma {:induction false} SignalsMeanShipments(env: Env, order: OrderRow)
    requires env.orders == Some(order)
    ensures Eval(HasActiveSql(), env) == Bool(HasActive(env.db, order))
    ensures Eval(HasVoidedSql(), env) == Bool(HasVoided(env.db, order))
  {
    EvalExists(HasActiveSql(), env);
    EvalExists(HasVoidedSql(), env);
    forall s | s in env.db.shipments
      ensures ShipmentHit(HasActiveSql(), env, s) <==> Matches(order, s) && s.voided != Some(true)
      ensures ShipmentHit(HasVoidedSql(), env, s) <==> Matches(order, s) && s.voided == Some(true)
    {
      EvalSignalRow(env.(s := Some(s)), order, s);
    }
  }

  // -- The customer status -------------------------------------------------------------

  lemma {:induction false} EvalFulfilledTrue(env: Env, order: OrderRow)
    requires env.orders == Some(order)
    ensures Eval(FulfilledTrueSql(), env) == Bool(RawExternallyFulfilled(order.raw) == Some(true))
    ensures Eval(BareFulfilledTrueSql(), env) == Null
        <==> FieldOf(FromJson(order.raw), "externallyFulfilled") == Null
    ensures Eval(BareFulfilledTrueSql(), env) != Null
        ==> Eval(BareFulfilledTrueSql(), env) == Eval(FulfilledTrueSql(), env)
  {
    var flag := FulfilledFlag();
    assert Eval(Col(Orders, Raw), env) == FromJson(order.raw);
    var v := FieldOf(FromJson(order.raw), "externallyFulfilled");
    assert Eval(flag, env) == v;
    var kind, text := Is(JsonTypeof(flag), "boolean"), Is(JsonText(flag), "true");
    assert Eval(JsonTypeof(flag), env) == TypeOf(v);
    assert Eval(JsonText(flag), env) == TextOf(v);
    assert Eval(Text("boolean"), env) == Str("boolean") && Eval(Text("true"), env) == Str("true");
    assert Eval(kind, env) == Equal(TypeOf(v), Str("boolean"));
    assert Eval(text, env) == Equal(TextOf(v), Str("true"));
    KindsDiffer(v);
    assert Eval(BareFulfilledTrueSql(), env) == Conj(Eval(kind, env), Eval(text, env));
    assert Eval(Lit(Bool(false)), env) == Bool(false);
  }

  lemma {:induction false} KindsDiffer(v: Value)
    ensures TypeOf(v) == Str("boolean") <==> v.Doc? && v.json.JsonBool?
    ensures v.Doc? && v.json.JsonBool? ==> (TextOf(v) == Str("true") <==> v.json.b)
  {
    assert |"boolean"| == 7 && |"object"| == 6 && |"string"| == 6 && |"number"| == 6
        && |"array"| == 5 && |"null"| == 4 && |"true"| == 4 && |"false"| == 5;
  }

  /** A CASE with two arms that share their result. */
  lemma {:induction false} EvalShippedUnless(c1: Expr, c2: Expr, rest: Expr, env: Env, b1: bool, b2: bool)
    requires (Eval(c1, env) == Bool(true)) == b1
    requires (Eval(c2, env) == Bool(true)) == b2
    ensures Eval(When(c1, Text("shipped"), When(c2, Text("shipped"), rest)), env)
         == if b1 || b2 then Str("shipped") else Eval(rest, env)
  {
    assert Eval(When(c2, Text("shipped"), rest), env) == if b2 then Str("shipped") else Eval(rest, env);
  }

  lemma {:induction false} EvalConfirmationGate(env: Env, order: OrderRow)
    requires env.orders == Some(order)
    ensures var cs := ToLower(TextOr(order.canonicalStatus));
            && Eval(Ne(LowerOrEmpty(Orders, OrderStatus), Text("shipped")), env)
               == Bool(ToLower(TextOr(order.orderStatus)) != "shipped")
            && Eval(Or(Is(LowerOrEmpty(Orders, CanonicalStatus), "confirmation_failed"),
                       Is(LowerOrEmpty(Orders, CanonicalStatus), "shipped_pending_confirmation")), env)
               == Bool(cs == "confirmation_failed" || cs == "shipped_pending_confirmation")
  {
    var cs := ToLower(TextOr(order.canonicalStatus));
    var localText, upstreamText := LowerOrEmpty(Orders, OrderStatus), LowerOrEmpty(Orders, CanonicalStatus);
    EvalLowerOrEmpty(Orders, OrderStatus, env, order.orderStatus);
    EvalLowerOrEmpty(Orders, CanonicalStatus, env, order.canonicalStatus);
    EvalIs(localText, "shipped", env, ToLower(TextOr(order.orderStatus)));
    EvalIs(upstreamText, "confirmation_failed", env, cs);
    EvalIs(upstreamText, "shipped_pending_confirmation", env, cs);
    assert Eval(Ne(localText, Text("shipped")), env) == Negate(Eval(Is(localText, "shipped"), env));
  }

  /** The CASE of the shipped bucket, as a decision on evaluated conditions. */
  lemma {:induction false} EvalShippedArm(env: Env, order: OrderRow, flag: Expr, fulfilled: Value)
    requires env.orders == Some(order)
    requires Eval(flag, env) == fulfilled
    ensures var os, cs := ToLower(TextOr(order.orderStatus)), ToLower(TextOr(order.canonicalStatus));
            Eval(ShippedArmSql(flag), env) == Str(
              if os != "shipped" then "shipped"
              else if cs == "confirmation_failed" || cs == "shipped_pending_confirmation" then "shipped"
              else if HasActive(env.db, order) then "shipped"
              else if HasVoided(env.db, order) && fulfilled == Bool(false) then "voided"
              else "shipped")
  {
    EvalConfirmationGate(env, order);
    var active, voided := HasActiveSql(), HasVoidedSql();
    assert Eval(active, env) == Bool(HasActive(env.db, order))
        && Eval(voided, env) == Bool(HasVoided(env.db, order)) by {
      SignalsMeanShipments(env, order);
    }
    EvalSignalArms(env, active, voided, flag, HasActive(env.db, order), HasVoided(env.db, order), fulfilled);
    var gate := Or(Is(LowerOrEmpty(Orders, CanonicalStatus), "confirmation_failed"),
                   Is(LowerOrEmpty(Orders, CanonicalStatus), "shipped_pending_confirmation"));
    var cs := ToLower(TextOr(order.canonicalStatus));
    EvalShippedUnless(Ne(LowerOrEmpty(Orders, OrderStatus), Text("shipped")), gate,
                      SignalArms(active, voided, flag), env,
                      ToLower(TextOr(order.orderStatus)) != "shipped",
                      cs == "confirmation_failed" || cs == "shipped_pending_confirmation");
  }

  lemma {:induction false} EvalSignalArms(env: Env, active: Expr, voided: Expr, flag: Expr,
                                          hasActive: bool, hasVoided: bool, fulfilled: Value)
    requires Eval(active, env) == Bool(hasActive) && Eval(voided, env) == Bool(hasVoided)
    requires Eval(flag, env) == fulfilled
    ensures Eval(SignalArms(active, voided, flag), env)
         == Str(if !hasActive && hasVoided && fulfilled == Bool(false) then "voided" else "shipped")
  {
    assert Eval(Not(flag), env) == Negate(fulfilled);
    var c := And(voided, Not(flag));
    assert Eval(c, env) == Conj(Bool(hasVoided), Negate(fulfilled));
    var last := When(c, Text("voided"), Text("shipped"));
    assert Eval(last, env) == if Eval(c, env) == Bool(true) then Str("voided") else Str("shipped");
  }

  lemma {:induction false} EvalStatusOver(env: Env, order: OrderRow, flag: Expr)
    requires env.orders == Some(order)
    ensures Eval(StatusSqlOver(flag), env) == match ResolveBucket(order)
                                              case Cancelled => Str("cancelled")
                                              case Pending => Str("pending")
                                              case Shipped => Eval(ShippedArmSql(flag), env)
  {
    EffectiveSqlIsResolver(Orders, env, order);
    EvalIs(EffectiveSql(Orders), "cancelled", env, EffectiveOf(order));
    EvalIs(EffectiveSql(Orders), "shipped", env, EffectiveOf(order));
    var inner := When(Is(EffectiveSql(Orders), "shipped"), ShippedArmSql(flag), Text("pending"));
    assert Eval(inner, env)
        == if EffectiveOf(order) == "shipped" then Eval(ShippedArmSql(flag), env) else Str("pending");
  }

  /** The Status column sorted in SQL is the badge resolved in TypeScript, whatever the tables
      and whatever the raw document hold. */
  lemma {:induction false} StatusSqlIsResolver(env: Env, order: OrderRow)
    requires env.orders == Some(order)
    ensures Eval(StatusSql(), env)
         == Str(StatusName(ResolveStatus(order, HasActive(env.db, order), HasVoided(env.db, order))))
  {
    EvalFulfilledTrue(env, order);
    EvalStatusOver(env, order, FulfilledTrueSql());
    EvalShippedArm(env, order, FulfilledTrueSql(), Eval(FulfilledTrueSql(), env));
  }

  /** Without the coalesce the two forms part exactly on voided orders whose raw document has no
      externallyFulfilled key: a NULL there skips the voided arm. */
  lemma {:induction false} BareFlagAgreesIff(env: Env, order: OrderRow)
    requires env.orders == Some(order)
    ensures Eval(StatusSqlOver(BareFulfilledTrueSql()), env) == Eval(StatusSql(), env)
       <==> (ResolveStatus(order, HasActive(env.db, order), HasVoided(env.db, order)).StatusVoided?
             ==> FieldOf(FromJson(order.raw), "externallyFulfilled") != Null)
  {
    EvalFulfilledTrue(env, order);
    EvalStatusOver(env, order, FulfilledTrueSql());
    EvalStatusOver(env, order, BareFulfilledTrueSql());
    EvalShippedArm(env, order, FulfilledTrueSql(), Eval(FulfilledTrueSql(), env));
    EvalShippedArm(env, order, BareFulfilledTrueSql(), Eval(BareFulfilledTrueSql(), env));
    assert |"voided"| != |"shipped"|;
  }

  /** The precedence rule of the customer status, stated without the resolver's branches. */
  lemma {:induction false} VoidedExactlyWhen(order: OrderRow, hasActive: bool, hasVoided: bool)
    ensures var status := ResolveStatus(order, hasActive, hasVoided);
            var cs := ToLower(TextOr(order.canonicalStatus));
            && (status.StatusCancelled? <==> ResolveBucket(order).Cancelled?)
            && (status.StatusPending? <==> ResolveBucket(order).Pending?)
            && (status.StatusVoided? <==>
                 && ToLower(TextOr(order.orderStatus)) == "shipped"
                 && cs != "cancelled" && cs != "confirmation_failed" && cs != "shipped_pending_confirmation"
                 && !hasActive && hasVoided
                 && RawExternallyFulfilled(order.raw) != Some(true))
  {
    assert |"shipped"| == 7 && |"cancelled"| == 9;
  }

  // -- The bucket in words ------------------------------------------------------------------

  /** The text is this lower-case word, in any mixture of cases. */
  predicate SpelledAs(text: Option<string>, word: string) {
    && text.Some? && |text.value| == |word|
    && forall i :: 0 <= i < |word| ==>
         text.value[i] == word[i] || ('A' <= text.value[i] <= 'Z' && text.value[i] as int + 32 == word[i] as int)
  }

  predicate LowerCase(word: string) {
    word != "" && forall i :: 0 <= i < |word| ==> 'a' <= word[i] <= 'z' || word[i] == '_'
  }

  lemma {:induction false} LowerSpells(text: Option<string>, word: string)
    requires LowerCase(word)
    ensures ToLower(TextOr(text)) == word <==> SpelledAs(text, word)
  {
    var low := ToLower(TextOr(text));
    if SpelledAs(text, word) {
      forall i | 0 <= i < |word| ensures low[i] == word[i] {
        assert 'a' <= word[i] <= 'z' || word[i] == '_';
      }
    }
    if low == word {
      forall i | 0 <= i < |word|
        ensures text.value[i] == word[i] || ('A' <= text.value[i] <= 'Z' && text.value[i] as int + 32 == word[i] as int)
      {
        assert low[i] == word[i];
      }
    }
  }

  /** Cancelled if either status says so, else shipped if the order status or the external flag does,
      whatever the case of the words; everything else is pending. */
  lemma {:induction false} BucketMeans(row: OrderRow)
    ensures var cancelled := SpelledAs(row.orderStatus, "cancelled") || SpelledAs(row.canonicalStatus, "cancelled");
            var shipped := SpelledAs(row.orderStatus, "shipped") || row.externallyShipped == Some(true);
            && (ResolveBucket(row).Cancelled? <==> cancelled)
            && (ResolveBucket(row).Shipped? <==> !cancelled && shipped)
  {
    LowerSpells(row.orderStatus, "cancelled");
    LowerSpells(row.canonicalStatus, "cancelled");
    LowerSpells(row.orderStatus, "shipped");
    assert |"cancelled"| == 9 && |"shipped"| == 7 && |"awaiting_shipment"| == 17;
  }

  /** A shipped order, by its own words, whose only outbound shipments are voided, with no standing
      confirmation state and no true external flag. */
  ghost predicate VoidedInWords(db: Database, order: OrderRow) {
    && SpelledAs(order.orderStatus, "shipped")
    && !SpelledAs(order.canonicalStatus, "cancelled")
    && !SpelledAs(order.canonicalStatus, "confirmation_failed")
    && !SpelledAs(order.canonicalStatus, "shipped_pending_confirmation")
    && (forall s :: s in db.shipments && Matches(order, s) ==> s.voided == Some(true))
    && (exists s :: s in db.shipments && Matches(order, s))
    && RawExternallyFulfilled(order.raw) != Some(true)
  }

  lemma {:induction false} ResolvedVoidedIff(db: Database, order: OrderRow)
    ensures ResolveStatus(order, HasActive(db, order), HasVoided(db, order)).StatusVoided? <==> VoidedInWords(db, order)
  {
    VoidedExactlyWhen(order, HasActive(db, order), HasVoided(db, order));
    LowerSpells(order.orderStatus, "shipped");
    LowerSpells(order.canonicalStatus, "cancelled");
    LowerSpells(order.canonicalStatus, "confirmation_failed");
    LowerSpells(order.canonicalStatus, "shipped_pending_confirmation");
    OnlyVoidedIff(db, order);
  }

  lemma {:induction false} StatusWord(v: Value, status: FulfillmentStatus)
    requires v == Str(StatusName(status))
    ensures v == Str("voided") <==> status.StatusVoided?
  {
    assert |"voided"| == 6 && |"pending"| == 7 && |"shipped"| == 7 && |"cancelled"| == 9;
  }

  /** When the customer sees a voided label, in the words of the rows themselves. */
  lemma {:induction false} VoidedMeans(env: Env, order: OrderRow)
    requires env.orders == Some(order)
    ensures Eval(StatusSql(), env) == Str("voided") <==> VoidedInWords(env.db, order)
  {
    StatusSqlIsResolver(env, order);
    var status := ResolveStatus(order, HasActive(env.db, order), HasVoided(env.db, order));
    StatusWord(Eval(StatusSql(), env), status);
    ResolvedVoidedIff(env.db, order);
  }

  /** The display states, each by itself: an active label unless every active row is an external record;
      a voided label where only voided rows stand and nothing says the order was fulfilled elsewhere; an
      external label where the active record is external, or where without any of that the order is
      flagged so; and nothing otherwise. */
  lemma {:induction false} DisplayStates(
    shipped: bool, fulfilled: Option<bool>, hasActive: bool, hasExternal: bool, hasVoided: bool)
    ensures var state := ResolveDisplayState(shipped, fulfilled, hasActive, hasExternal, hasVoided);
            && (state == ActiveLabel <==> hasActive && !hasExternal)
            && (state == VoidedLabel <==> !hasActive && hasVoided && fulfilled != Some(true))
            && (state == MissingShipmentSync <==> !hasActive && !hasVoided && !shipped && fulfilled != Some(true))
            && (state == ExternalLabel <==>
                  (hasActive && hasExternal)
                  || (!hasActive && fulfilled == Some(true))
                  || (!hasActive && !hasVoided && shipped))
  {}

  lemma {:induction false} OnlyVoidedIff(db: Database, order: OrderRow)
    ensures !HasActive(db, order) && HasVoided(db, order) <==>
      && (forall s :: s in db.shipments && Matches(order, s) ==> s.voided == Some(true))
      && (exists s :: s in db.shipments && Matches(order, s))
  {
    if exists s :: s in db.shipments && Matches(order, s) {
      var s :| s in db.shipments && Matches(order, s);
    }
  }
}
