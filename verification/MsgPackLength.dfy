/**
 The length pass against the write pass.  `CREATE` allocates what the length pass computes and then lets
 the write pass fill it; this module says by exactly how much the two differ on every value.
 */
module MsgPackLength {
  import opened MsgPack

  // ----- the length pass ---------------------------------------------------------------------

  /** The code's `ABS` on a 32-bit number: the lowest number is its own absolute value. */
  function Abs32(x: int): int {
    if x >= 0 then x else if x == -0x8000_0000 then x else -x
  }

  function IntegerLength(x: int): nat {
    var v := Abs32(x);
    if -0x20 <= x < 0x80 then 1
    else if 0 <= v < 0x100 then 2
    else if 0 <= v < 0x1_0000 then 3
    else 5
  }

  function TextLength(n: nat): nat {
    if n < 0x20 then 1 + n
    else if n < 0x100 then 2 + n
    else if n < 0x1_0000 then 3 + n
    else 5 + n
  }

  /** The test masks the count with the format parameter -4, so it asks whether the count is a multiple of
      four, not whether it fits four bits. */
  function ArrayLength(n: nat): nat {
    if n % 4 == 0 then 1
    else if n < 0x1_0000 then 3
    else 5
  }

  function MapLength(count: nat): nat {
    if count % 2 != 0 then 0 else ArrayLength(count / 2)
  }

  function Length(v: Value): nat {
    match v
    case Integer(x, _) => IntegerLength(x)
    case Text(bytes) => TextLength(|bytes|)
    case Array(items) => ArrayLength(|items|) + LengthAll(items)
    case Map(items) => MapLength(|items|) + LengthAll(items)
  }

  function LengthAll(items: seq<Value>): nat {
    if items == [] then 0
    else LengthAll(items[..|items| - 1]) + Length(items[|items| - 1])
  }

  // ----- the difference ----------------------------------------------------------------------

  /** Bytes reserved beyond those written for one integer. */
  function IntegerSlack(x: int, signed: bool): int {
    if x >= 0 || x <= -0x1_0000 then 0
    else if !signed then (if x >= -0x20 then -4 else if x > -0x100 then -3 else -2)
    else if -0x100 < x < -0x80 then -1
    else if x < -0x8000 then -2
    else 0
  }

  /** Bytes reserved beyond those written for the header of a container with `n` elements. */
  function HeaderSlack(n: nat): int {
    if n % 4 != 0 then (if n < 0x10 then 2 else 0)
    else if n < 0x10 then 0
    else if n < 0x1_0000 then -2
    else -4
  }

  function Slack(v: Value): int {
    match v
    case Integer(x, signed) => IntegerSlack(x, signed)
    case Text(_) => 0
    case Array(items) => HeaderSlack(|items|) + SlackAll(items)
    case Map(items) => HeaderSlack(|items| / 2) + SlackAll(items)
  }

  function SlackAll(items: seq<Value>): int {
    if items == [] then 0
    else SlackAll(items[..|items| - 1]) + Slack(items[|items| - 1])
  }

  /** The length pass reserves exactly `Slack` bytes more than the write pass stores, for every value. */
  lemma {:induction false} LengthMinusWritten(v: Value)
    requires Valid(v)
    ensures Length(v) == |Write(v)| + Slack(v)
  {
    match v
    case Integer(x, signed) =>
    case Text(bytes) =>
    case Array(items) => LengthMinusWrittenAll(items);
    case Map(items) => LengthMinusWrittenAll(items);
  }

  lemma {:induction false} LengthMinusWrittenAll(items: seq<Value>)
    requires AllValid(items)
    ensures LengthAll(items) == |WriteAll(items)| + SlackAll(items)
  {
    if items != [] {
      PartsOfPrefix(items, |items| - 1);
      LengthMinusWrittenAll(items[..|items| - 1]);
      LengthMinusWritten(items[|items| - 1]);
    }
  }

  /** The buffer is large enough exactly when the slack is not negative. */
  lemma BufferLargeEnoughIff(v: Value)
    requires Valid(v)
    ensures Length(v) >= |Write(v)| <==> Slack(v) >= 0
  {
    LengthMinusWritten(v);
  }

  /** Nonnegative integers, and no container count that is a multiple of four from 16 on. */
  predicate Tame(v: Value) {
    match v
    case Integer(x, _) => x >= 0
    case Text(_) => true
    case Array(items) => (|items| % 4 != 0 || |items| < 0x10) && AllTame(items)
    case Map(items) => (|items| / 2 % 4 != 0 || |items| / 2 < 0x10) && AllTame(items)
  }

  predicate AllTame(items: seq<Value>) {
    forall i | 0 <= i < |items| :: Tame(items[i])
  }

  lemma {:induction false} TameSlack(v: Value)
    requires Tame(v)
    ensures Slack(v) >= 0
    ensures v.Integer? || v.Text? ==> Slack(v) == 0
  {
    match v
    case Integer(x, signed) =>
    case Text(bytes) =>
    case Array(items) => TameSlackAll(items);
    case Map(items) => TameSlackAll(items);
  }

  lemma {:induction false} TameSlackAll(items: seq<Value>)
    requires AllTame(items)
    ensures SlackAll(items) >= 0
  {
    if items != [] {
      TameSlackAll(items[..|items| - 1]);
      TameSlack(items[|items| - 1]);
    }
  }

  /** For tame values the reserved buffer holds everything that is written, exactly for scalars. */
  lemma TameValuesFit(v: Value)
    requires Valid(v) && Tame(v)
    ensures Length(v) >= |Write(v)|
    ensures v.Integer? || v.Text? ==> Length(v) == |Write(v)|
  {
    LengthMinusWritten(v);
    TameSlack(v);
  }

  /** Integers and strings never have bytes to spare. */
  lemma {:induction false} ScalarSlack(items: seq<Value>)
    requires forall v <- items :: v.Integer? || v.Text?
    ensures SlackAll(items) <= 0
  {
    if items != [] {
      assert items[|items| - 1] in items;
      ScalarSlack(items[..|items| - 1]);
    }
  }

  /** Every array of integers and strings whose count is a multiple of four, and at least 16, is written past the end
      of its buffer. */
  lemma ArrayOverrun(items: seq<Value>)
    requires Valid(Array(items)) && |items| % 4 == 0 && |items| >= 0x10
    requires forall v <- items :: v.Integer? || v.Text?
    ensures Length(Array(items)) < |Write(Array(items))|
  {
    ScalarSlack(items);
    LengthMinusWritten(Array(items));
  }
}
