/** The fragment of PostgreSQL expressions that the order and shipment read models
    render, with NULL, three-valued logic, EXISTS and LIMIT 1 scalar subqueries.
    An expression is data, so one lemma about a template covers every alias it is
    rendered for. */
module Sql {
  import opened Common

  /** A jsonb document: only the pieces `->`, `jsonb_typeof` and `::text` look at. */
  datatype Json =
    | JsonBool(b: bool)
    | JsonObject(fields: map<string, Json>)
    | JsonOther(kind: JsonKind, text: string)

  datatype JsonKind = StringKind | NumberKind | ArrayKind | NullKind

  datatype Value =
    | Null
    | Str(s: string)
    | Int(i: int)
    | Bool(b: bool)
    | Doc(json: Json)
    | Pair(tracking: Value, carrier: Value)

  datatype OrderRow = OrderRow(
    id: int,
    clientId: Option<int>,
    orderNumber: Option<string>,
    orderStatus: Option<string>,
    canonicalStatus: Option<string>,
    externallyShipped: Option<bool>,
    raw: Option<Json>)

  datatype ShipmentRow = ShipmentRow(
    id: int,
    orderId: Option<int>,
    clientId: Option<int>,
    orderNumber: Option<string>,
    isReturn: Option<bool>,
    voided: Option<bool>,
    labelTracking: Option<string>,
    trackingNumber: Option<string>,
    labelCarrier: Option<string>,
    carrierCode: Option<string>)

  /** Tables in the order the storage happens to hold them. */
  datatype Database = Database(orders: seq<OrderRow>, shipments: seq<ShipmentRow>)

  /** The names a query binds: the driving tables and the subquery aliases. */
  datatype Alias = Orders | Shipments | O | S

  datatype Column =
    | Id | ClientId | OrderNumber
    | OrderStatus | CanonicalStatus | ExternallyShipped | Raw
    | OrderId | IsReturn | Voided
    | LabelTracking | TrackingNumber | LabelCarrier | CarrierCode

  datatype Env = Env(
    db: Database,
    orders: Option<OrderRow>,       // None: a left join that found nothing
    shipments: Option<ShipmentRow>,
    o: Option<OrderRow>,
    s: Option<ShipmentRow>)

  datatype UnOp = OpNot | OpIsNull | OpLower | OpTrim | OpTypeof | OpText | OpField(key: string)

  datatype BinOp = OpEq | OpAnd | OpOr | OpCoalesce | OpNullIf | OpPair

  datatype Expr =
    | Lit(v: Value)
    | Col(alias: Alias, column: Column)
    | Un(u: UnOp, e: Expr)
    | Bin(b: BinOp, l: Expr, r: Expr)
    | When(cond: Expr, thn: Expr, els: Expr)        // one arm of a CASE; els holds the next arm
    | ExistsShipment(where_: Expr)                  // exists (select 1 from shipments s where ...)
    | FirstShipment(value: Expr, where_: Expr)      // ... order by s.id desc limit 1
    | FirstOrder(value: Expr, where_: Expr, rank: Expr) // ... order by rank, o.id desc limit 1

  function Eq(l: Expr, r: Expr): Expr { Bin(OpEq, l, r) }

  function And(l: Expr, r: Expr): Expr { Bin(OpAnd, l, r) }

  function Or(l: Expr, r: Expr): Expr { Bin(OpOr, l, r) }

  function Not(e: Expr): Expr { Un(OpNot, e) }

  function Ne(l: Expr, r: Expr): Expr { Not(Eq(l, r)) }

  function IsNull(e: Expr): Expr { Un(OpIsNull, e) }

  function Coalesce(l: Expr, r: Expr): Expr { Bin(OpCoalesce, l, r) }

  function NullIf(l: Expr, r: Expr): Expr { Bin(OpNullIf, l, r) }

  function Lower(e: Expr): Expr { Un(OpLower, e) }

  function Trim(e: Expr): Expr { Un(OpTrim, e) }

  function JsonField(e: Expr, key: string): Expr { Un(OpField(key), e) }

  function JsonTypeof(e: Expr): Expr { Un(OpTypeof, e) }

  function JsonText(e: Expr): Expr { Un(OpText, e) }

  function BuildPair(tracking: Expr, carrier: Expr): Expr { Bin(OpPair, tracking, carrier) }

  // -- Values ---------------------------------------------------------------

  function FromStr(o: Option<string>): Value {
    if o.None? then Null else Str(o.value)
  }

  function FromInt(o: Option<int>): Value {
    if o.None? then Null else Int(o.value)
  }

  function FromBool(o: Option<bool>): Value {
    if o.None? then Null else Bool(o.value)
  }

  function FromJson(o: Option<Json>): Value {
    if o.None? then Null else Doc(o.value)
  }

  function OrderColumn(row: Option<OrderRow>, c: Column): Value {
    if row.None? then Null
    else match c
      case Id => Int(row.value.id)
      case ClientId => FromInt(row.value.clientId)
      case OrderNumber => FromStr(row.value.orderNumber)
      case OrderStatus => FromStr(row.value.orderStatus)
      case CanonicalStatus => FromStr(row.value.canonicalStatus)
      case ExternallyShipped => FromBool(row.value.externallyShipped)
      case Raw => FromJson(row.value.raw)
      case _ => Null
  }

  function ShipmentColumn(row: Option<ShipmentRow>, c: Column): Value {
    if row.None? then Null
    else match c
      case Id => Int(row.value.id)
      case OrderId => FromInt(row.value.orderId)
      case ClientId => FromInt(row.value.clientId)
      case OrderNumber => FromStr(row.value.orderNumber)
      case IsReturn => FromBool(row.value.isReturn)
      case Voided => FromBool(row.value.voided)
      case LabelTracking => FromStr(row.value.labelTracking)
      case TrackingNumber => FromStr(row.value.trackingNumber)
      case LabelCarrier => FromStr(row.value.labelCarrier)
      case CarrierCode => FromStr(row.value.carrierCode)
      case _ => Null
  }

  function ColumnOf(env: Env, alias: Alias, c: Column): Value {
    match alias
    case Orders => OrderColumn(env.orders, c)
    case O => OrderColumn(env.o, c)
    case Shipments => ShipmentColumn(env.shipments, c)
    case S => ShipmentColumn(env.s, c)
  }

  // -- Operators ------------------------------------------------------------

  function Equal(a: Value, b: Value): Value {
    if a.Null? || b.Null? then Null else Bool(a == b)
  }

  function Negate(v: Value): Value {
    if v.Bool? then Bool(!v.b) else Null
  }

  function Conj(a: Value, b: Value): Value {
    if a == Bool(false) || b == Bool(false) then Bool(false)
    else if a == Bool(true) && b == Bool(true) then Bool(true)
    else Null
  }

  function Disj(a: Value, b: Value): Value {
    if a == Bool(true) || b == Bool(true) then Bool(true)
    else if a == Bool(false) && b == Bool(false) then Bool(false)
    else Null
  }

  function LowerChar(c: char): char {
    if 'A' <= c <= 'Z' then c + 32 as char else c
  }

  function ToLower(s: string): (r: string)
    ensures |r| == |s|
    ensures forall i :: 0 <= i < |s| ==> r[i] == LowerChar(s[i])
  {
    seq(|s|, i requires 0 <= i < |s| => LowerChar(s[i]))
  }

  function TrimLeft(s: string): string {
    if s != [] && s[0] == ' ' then TrimLeft(s[1..]) else s
  }

  function TrimRight(s: string): string {
    if s != [] && s[|s| - 1] == ' ' then TrimRight(s[..|s| - 1]) else s
  }

  function FieldOf(v: Value, key: string): Value {
    if v.Doc? && v.json.JsonObject? && key in v.json.fields then Doc(v.json.fields[key]) else Null
  }

  function TypeOf(v: Value): Value {
    if !v.Doc? then Null
    else match v.json
      case JsonBool(_) => Str("boolean")
      case JsonObject(_) => Str("object")
      case JsonOther(StringKind, _) => Str("string")
      case JsonOther(NumberKind, _) => Str("number")
      case JsonOther(ArrayKind, _) => Str("array")
      case JsonOther(NullKind, _) => Str("null")
  }

  /** The text of an object is never looked at: a type test always guards it. */
  function TextOf(v: Value): Value {
    if !v.Doc? then Null
    else match v.json
      case JsonBool(b) => Str(if b then "true" else "false")
      case JsonObject(_) => Str("{}")
      case JsonOther(_, text) => Str(text)
  }

  function ApplyUn(u: UnOp, v: Value): Value {
    match u
    case OpNot => Negate(v)
    case OpIsNull => Bool(v.Null?)
    case OpLower => if v.Str? then Str(ToLower(v.s)) else Null
    case OpTrim => if v.Str? then Str(TrimRight(TrimLeft(v.s))) else Null
    case OpTypeof => TypeOf(v)
    case OpText => TextOf(v)
    case OpField(key) => FieldOf(v, key)
  }

  function ApplyBin(b: BinOp, l: Value, r: Value): Value {
    match b
    case OpEq => Equal(l, r)
    case OpAnd => Conj(l, r)
    case OpOr => Disj(l, r)
    case OpCoalesce => if l.Null? then r else l
    case OpNullIf => if Equal(l, r) == Bool(true) then Null else l
    case OpPair => Pair(l, r)
  }

  // -- Evaluation -----------------------------------------------------------

  function Eval(e: Expr, env: Env): Value
    decreases e, 1, 0
  {
    match e
    case Lit(v) => v
    case Col(alias, c) => ColumnOf(env, alias, c)
    case Un(u, x) => ApplyUn(u, Eval(x, env))
    case Bin(b, l, r) => ApplyBin(b, Eval(l, env), Eval(r, env))
    case When(c, t, f) => if Eval(c, env) == Bool(true) then Eval(t, env) else Eval(f, env)
    case ExistsShipment(_) => Bool(BestShipment(e, env, |env.db.shipments|).Some?)
    case FirstShipment(v, _) =>
      var best := BestShipment(e, env, |env.db.shipments|);
      if best.None? then Null else Eval(v, env.(s := best))
    case FirstOrder(v, _, _) =>
      var best := BestOrder(e, env, |env.db.orders|);
      if best.None? then Null else Eval(v, env.(o := best))
  }

  /** The matching shipment with the greatest id among the first n stored rows. */
  function BestShipment(e: Expr, env: Env, n: nat): Option<ShipmentRow>
    requires e.ExistsShipment? || e.FirstShipment?
    requires n <= |env.db.shipments|
    decreases e, 0, n
  {
    if n == 0 then None
    else
      var rest := BestShipment(e, env, n - 1);
      var row := env.db.shipments[n - 1];
      if Eval(e.where_, env.(s := Some(row))) != Bool(true) then rest
      else if rest.None? || rest.value.id < row.id then Some(row)
      else rest
  }

  /** The matching order that sorts first by (rank ascending, id descending). */
  function BestOrder(e: Expr, env: Env, n: nat): Option<OrderRow>
    requires e.FirstOrder?
    requires n <= |env.db.orders|
    decreases e, 0, n
  {
    if n == 0 then None
    else
      var rest := BestOrder(e, env, n - 1);
      var row := env.db.orders[n - 1];
      if Eval(e.where_, env.(o := Some(row))) != Bool(true) then rest
      else if rest.None? then Some(row)
      else if SortsBefore(Eval(e.rank, env.(o := Some(row))), row.id,
                          Eval(e.rank, env.(o := rest)), rest.value.id) then Some(row)
      else rest
  }

  /** ascending rank (NULLs last), then descending id */
  predicate SortsBefore(rankA: Value, idA: int, rankB: Value, idB: int) {
    if rankA.Int? && rankB.Int? && rankA.i != rankB.i then rankA.i < rankB.i
    else if rankA.Int? != rankB.Int? then rankA.Int?
    else idA > idB
  }

  // -- What a LIMIT 1 subquery returns ---------------------------------------

  predicate ShipmentHit(e: Expr, env: Env, row: ShipmentRow)
    requires e.ExistsShipment? || e.FirstShipment?
  {
    row in env.db.shipments && Eval(e.where_, env.(s := Some(row))) == Bool(true)
  }

  predicate OrderHit(e: Expr, env: Env, row: OrderRow)
    requires e.FirstOrder?
  {
    row in env.db.orders && Eval(e.where_, env.(o := Some(row))) == Bool(true)
  }

  /** No row is returned exactly when none matches; otherwise the newest match is. */
  lemma {:induction false} BestShipmentIsNewestHit(e: Expr, env: Env, n: nat)
    requires e.ExistsShipment? || e.FirstShipment?
    requires n <= |env.db.shipments|
    ensures var best := BestShipment(e, env, n);
            && (best.Some? ==> best.value in env.db.shipments[..n] && ShipmentHit(e, env, best.value))
            && forall row :: row in env.db.shipments[..n] && ShipmentHit(e, env, row)
                 ==> best.Some? && row.id <= best.value.id
  {
    if n > 0 {
      BestShipmentIsNewestHit(e, env, n - 1);
      assert env.db.shipments[..n] == env.db.shipments[..n - 1] + [env.db.shipments[n - 1]];
    }
  }

  lemma {:induction false} BestOrderIsFirstHit(e: Expr, env: Env, n: nat)
    requires e.FirstOrder?
    requires n <= |env.db.orders|
    ensures var best := BestOrder(e, env, n);
            && (best.Some? ==> best.value in env.db.orders[..n] && OrderHit(e, env, best.value))
            && forall row :: row in env.db.orders[..n] && OrderHit(e, env, row)
                 ==> best.Some? && !SortsBefore(Eval(e.rank, env.(o := Some(row))), row.id,
                                                Eval(e.rank, env.(o := best)), best.value.id)
  {
    if n > 0 {
      BestOrderIsFirstHit(e, env, n - 1);
      assert env.db.orders[..n] == env.db.orders[..n - 1] + [env.db.orders[n - 1]];
    }
  }

  ghost predicate UniqueShipmentIds(db: Database) {
    forall a, b :: a in db.shipments && b in db.shipments && a.id == b.id ==> a == b
  }

  ghost predicate UniqueOrderIds(db: Database) {
    forall a, b :: a in db.orders && b in db.orders && a.id == b.id ==> a == b
  }
}
