/**
 The MessagePack codec of hlib: the length and write passes over a value, the format table behind the
 first byte, and the readers.  Multi-byte numbers are stored low byte first.
 */
module MsgPack {
  import opened Optional

  type Byte = b: int | 0 <= b < 0x100
  type Bytes = seq<Byte>

  // ----- values ------------------------------------------------------------------------------

  /** What a buffer definition describes.  An integer is a 32-bit pattern read as a signed number, with
      the signedness that the definition states; a map is the flat list of its keys and values. */
  datatype Value =
    | Integer(value: int, signed: bool)
    | Text(bytes: Bytes)
    | Array(items: seq<Value>)
    | Map(items: seq<Value>)

  predicate IsInt32(x: int) {
    -0x8000_0000 <= x < 0x8000_0000
  }

  predicate IsUint32(x: int) {
    0 <= x < 0x1_0000_0000
  }

  /** Values that the C types can describe: 32-bit numbers and NUL-terminated strings. */
  predicate Valid(v: Value) {
    match v
    case Integer(x, _) => IsInt32(x)
    case Text(bytes) => IsUint32(|bytes|) && 0 !in bytes
    case Array(items) => IsUint32(|items|) && AllValid(items)
    case Map(items) => IsUint32(|items|) && |items| % 2 == 0 && AllValid(items)
  }

  predicate AllValid(items: seq<Value>) {
    forall i | 0 <= i < |items| :: Valid(items[i])
  }

  // ----- the format table --------------------------------------------------------------------

  datatype DataType = INTEGER | NIL | BOOLEAN | FLOAT | STRING | BINARY | ARRAY | MAP | EXTENSION | UNUSED

  datatype ReadType = Inline | InlineLength | FixedLength | ReadLength | ElementsInline | ReadElements

  datatype Format = Format(dataType: DataType, min: Byte, max: Byte, readType: ReadType, parameter: int) {
    /** The bytes that the format puts between the first byte and the contents. */
    function Size(): nat {
      if parameter > 0 then parameter else 0
    }
  }

  const FORMAT_COUNT: nat := 36

  /** The rows of the format table. */
  function FormatEntry(i: nat): Format {
    match i
    case 0 => Format(INTEGER, 0x00, 0x7F, Inline, -7)
    case 1 => Format(MAP, 0x80, 0x8F, ElementsInline, -4)
    case 2 => Format(ARRAY, 0x90, 0x9F, ElementsInline, -4)
    case 3 => Format(STRING, 0xA0, 0xBF, InlineLength, -5)
    case 4 => Format(NIL, 0xC0, 0xC0, Inline, 0)
    case 5 => Format(UNUSED, 0xC1, 0xC1, Inline, 0)
    case 6 => Format(BOOLEAN, 0xC2, 0xC3, Inline, -1)
    case 7 => Format(BINARY, 0xC4, 0xC4, ReadLength, 1)
    case 8 => Format(BINARY, 0xC5, 0xC5, ReadLength, 2)
    case 9 => Format(BINARY, 0xC6, 0xC6, ReadLength, 4)
    case 10 => Format(EXTENSION, 0xC7, 0xC7, ReadLength, 1)
    case 11 => Format(EXTENSION, 0xC8, 0xC8, ReadLength, 2)
    case 12 => Format(EXTENSION, 0xC9, 0xC9, ReadLength, 4)
    case 13 => Format(FLOAT, 0xCA, 0xCA, FixedLength, 4)
    case 14 => Format(FLOAT, 0xCB, 0xCB, FixedLength, 8)
    case 15 => Format(INTEGER, 0xCC, 0xCC, FixedLength, 1)
    case 16 => Format(INTEGER, 0xCD, 0xCD, FixedLength, 2)
    case 17 => Format(INTEGER, 0xCE, 0xCE, FixedLength, 4)
    case 18 => Format(INTEGER, 0xCF, 0xCF, FixedLength, 8)
    case 19 => Format(INTEGER, 0xD0, 0xD0, FixedLength, 1)
    case 20 => Format(INTEGER, 0xD1, 0xD1, FixedLength, 2)
    case 21 => Format(INTEGER, 0xD2, 0xD2, FixedLength, 4)
    case 22 => Format(INTEGER, 0xD3, 0xD3, FixedLength, 8)
    case 23 => Format(EXTENSION, 0xD4, 0xD4, FixedLength, 1)
    case 24 => Format(EXTENSION, 0xD5, 0xD5, FixedLength, 2)
    case 25 => Format(EXTENSION, 0xD6, 0xD6, FixedLength, 4)
    case 26 => Format(EXTENSION, 0xD7, 0xD7, FixedLength, 8)
    case 27 => Format(EXTENSION, 0xD8, 0xD8, FixedLength, 16)
    case 28 => Format(STRING, 0xD9, 0xD9, ReadLength, 1)
    case 29 => Format(STRING, 0xDA, 0xDA, ReadLength, 2)
    case 30 => Format(STRING, 0xDB, 0xDB, ReadLength, 4)
    case 31 => Format(ARRAY, 0xDC, 0xDC, ReadElements, 2)
    case 32 => Format(ARRAY, 0xDD, 0xDD, ReadElements, 4)
    case 33 => Format(MAP, 0xDE, 0xDE, ReadElements, 2)
    case 34 => Format(MAP, 0xDF, 0xDF, ReadElements, 4)
    case _ => Format(INTEGER, 0xE0, 0xFF, Inline, -5)
  }

  /** The first row from `i` on whose range reaches up to `b`. */
  function FormatIndexFrom(i: nat, b: Byte): nat
    decreases FORMAT_COUNT - i
  {
    if i + 1 >= FORMAT_COUNT || b <= FormatEntry(i).max then i else FormatIndexFrom(i + 1, b)
  }

  function FormatIndex(b: Byte): nat {
    FormatIndexFrom(0, b)
  }

  /** `FirstByteToFormat` and the rows that it leads to. */
  type Table = t: seq<Format> | |t| == 0x100 witness seq(0x100, _ => Format(UNUSED, 0, 0, Inline, 0))

  /** The table after `initializeFlatBuffers`: every byte has the row whose range holds it. */
  ghost predicate Initialized(table: Table) {
    forall i: nat, b: Byte | InRange(i, b) :: table[b] == FormatEntry(i)
  }

  predicate InRange(i: nat, b: Byte) {
    i < FORMAT_COUNT && FormatEntry(i).min <= b <= FormatEntry(i).max
  }

  /** Each range starts where the one before it ends. */
  lemma RangesAdjoin(i: nat)
    requires i + 1 < FORMAT_COUNT
    ensures FormatEntry(i).max + 1 == FormatEntry(i + 1).min && FormatEntry(i).min <= FormatEntry(i).max
  {
  }

  lemma {:induction false} RangesAscend(i: nat, j: nat)
    requires i < j < FORMAT_COUNT
    ensures FormatEntry(i).max < FormatEntry(j).min
    decreases j - i
  {
    RangesAdjoin(j - 1);
    if i < j - 1 {
      RangesAscend(i, j - 1);
    }
  }

  lemma {:induction false} FormatIndexFromFinds(k: nat, i: nat, b: Byte)
    requires k <= i && InRange(i, b)
    ensures FormatIndexFrom(k, b) == i
    decreases i - k
  {
    if k < i {
      RangesAscend(k, i);
      FormatIndexFromFinds(k + 1, i, b);
    }
  }

  /** The ranges of the table do not overlap. */
  lemma OneRange(i: nat, b: Byte)
    requires InRange(i, b)
    ensures FormatIndex(b) == i
  {
    FormatIndexFromFinds(0, i, b);
  }

  lemma {:induction false} FormatIndexFromInRange(i: nat, b: Byte)
    requires i < FORMAT_COUNT && FormatEntry(i).min <= b
    ensures InRange(FormatIndexFrom(i, b), b)
    decreases FORMAT_COUNT - i
  {
    if i + 1 < FORMAT_COUNT && b > FormatEntry(i).max {
      RangesAdjoin(i);
      FormatIndexFromInRange(i + 1, b);
    }
  }

  method FillSpots(table: array<Format>, from: Byte, to: Byte, value: Format)
    requires table.Length == 0x100 && from <= to
    modifies table
    ensures forall b | 0 <= b < 0x100 :: table[b] == if from <= b <= to then value else old(table[b])
  {
    for i := from to to + 1
      invariant forall b | 0 <= b < 0x100 :: table[b] == if from <= b < i then value else old(table[b])
    {
      table[i] := value;
    }
  }

  /** `initializeFlatBuffers`: after all formats have filled their ranges, the table gives every first byte
      its format, and it leaves no byte out. */
  method InitializeFormats(table: array<Format>)
    requires table.Length == 0x100
    modifies table
    ensures Initialized(table[..])
    ensures forall b: Byte :: InRange(FormatIndex(b), b)
  {
    for i := 0 to FORMAT_COUNT
      invariant forall b: Byte | FormatIndex(b) < i :: table[b] == FormatEntry(FormatIndex(b))
    {
      if i + 1 < FORMAT_COUNT {
        RangesAdjoin(i);
      }
      FillSpots(table, FormatEntry(i).min, FormatEntry(i).max, FormatEntry(i));
      forall b: Byte | FormatIndex(b) <= i ensures table[b] == FormatEntry(FormatIndex(b)) {
        FormatIndexFromInRange(0, b);
        if InRange(i, b) { OneRange(i, b); }
      }
    }
    forall i: nat, b: Byte | InRange(i, b) ensures table[..][b] == FormatEntry(i) {
      OneRange(i, b);
    }
    forall b: Byte ensures InRange(FormatIndex(b), b) {
      FormatIndexFromInRange(0, b);
    }
  }

  // ----- numbers in a buffer -----------------------------------------------------------------

  /** The low 16 bits of a number in two bytes. */
  function Little16(n: int): Bytes {
    [n % 0x100, n / 0x100 % 0x100]
  }

  /** The low 32 bits of a number in four bytes. */
  function Little32(n: int): Bytes {
    [n % 0x100, n / 0x100 % 0x100, n / 0x1_0000 % 0x100, n / 0x100_0000 % 0x100]
  }

  /** Dividing twice by 0x100. */
  lemma TwoBytesUp(n: int)
    ensures n / 0x1_0000 == n / 0x100 / 0x100
  {
    var a := n / 0x100;
    assert n == 0x1_0000 * (a / 0x100) + (0x100 * (a % 0x100) + n % 0x100);
  }

  /** The four bytes make up the low 32 bits. */
  lemma LittleParts(n: int)
    ensures n % 0x1_0000_0000 == n % 0x100 + 0x100 * (n / 0x100 % 0x100) + 0x1_0000 * (n / 0x1_0000 % 0x100)
                                 + 0x100_0000 * (n / 0x100_0000 % 0x100)
  {
    TwoBytesUp(n);
    TwoBytesUp(n / 0x100);
    ThreeBytesUp(n);
    var a, b, c := n / 0x100, n / 0x1_0000, n / 0x100_0000;
    assert n == 0x100 * a + n % 0x100 && a == 0x100 * b + a % 0x100 && b == 0x100 * c + b % 0x100;
    var d := c / 0x100;
    LowPart(n, d, n % 0x100 + 0x100 * (a % 0x100) + 0x1_0000 * (b % 0x100) + 0x100_0000 * (c % 0x100));
  }

  lemma ThreeBytesUp(n: int)
    ensures n / 0x100_0000 == n / 0x1_0000 / 0x100
  {
    var a := n / 0x1_0000;
    assert n == 0x100_0000 * (a / 0x100) + (0x1_0000 * (a % 0x100) + n % 0x1_0000);
  }

  lemma LowPart(n: int, high: int, low: int)
    requires n == 0x1_0000_0000 * high + low && 0 <= low < 0x1_0000_0000
    ensures n % 0x1_0000_0000 == low
  {
  }

  /** `bytes` stand at position `pos` of `data`. */
  predicate At(data: Bytes, pos: nat, bytes: Bytes) {
    pos + |bytes| <= |data| && data[pos..pos + |bytes|] == bytes
  }

  /** The `size` bytes at `pos` as a number; nothing if they lie outside the buffer. */
  function Load(data: Bytes, pos: nat, size: nat): Option<nat>
    requires size == 1 || size == 2 || size == 4
  {
    if pos + size > |data| then None
    else if size == 1 then Some(data[pos])
    else if size == 2 then Some(data[pos] + 0x100 * data[pos + 1] as int)
    else
      Some(data[pos] + 0x100 * data[pos + 1] as int + 0x1_0000 * data[pos + 2] as int
           + 0x100_0000 * data[pos + 3] as int)
  }

  // ----- the write pass ----------------------------------------------------------------------

  function WriteInteger(x: int, signed: bool): Bytes {
    if x < 0 && !signed then [0xCE] + Little32(x)
    else if 0 <= x < 0x80 then [x]
    else if -0x20 <= x < 0 then [x + 0x100]
    else if 0 <= x < 0x100 then [0xCC, x]
    else if -0x80 <= x < 0x80 then [0xD0, x + 0x100]
    else if 0 <= x < 0x1_0000 then [0xCD] + Little16(x)
    else if -0x8000 <= x < 0x8000 then [0xD1] + Little16(x)
    else [0xCE] + Little32(x)
  }

  /** The number of the first byte's format, among those of integers, in which a number is written. */
  function IntegerFormat(x: int, signed: bool): nat {
    if 0 <= x <= 0x7F then 0
    else if -0x20 <= x < 0 && signed then 35
    else if 0x80 <= x <= 0xFF then 15
    else if 0x100 <= x <= 0xFFFF then 16
    else if -0x80 <= x < -0x20 && signed then 19
    else if -0x8000 <= x < -0x80 && signed then 20
    else 17
  }

  /** A number is written in the smallest format for it, behind the first byte of that format's row; a negative number
      goes out as UINT32 if it was declared unsigned or is below the 16-bit range.  What follows the first byte is the
      number modulo the width of the format, low byte first. */
  lemma IntegerIsWrittenAs(x: int, signed: bool)
    requires IsInt32(x)
    ensures var bytes, row := WriteInteger(x, signed), IntegerFormat(x, signed);
            && |bytes| > 0 && InRange(row, bytes[0]) && FormatEntry(row).dataType == INTEGER
            && |bytes| == 1 + FormatEntry(row).Size()
            && match row
               case 0 => bytes[0] == x
               case 35 => bytes[0] == x + 0x100
               case 15 => Load(bytes, 1, 1) == Some(x % 0x100)
               case 19 => Load(bytes, 1, 1) == Some(x % 0x100)
               case 16 => Load(bytes, 1, 2) == Some(x % 0x1_0000)
               case 20 => Load(bytes, 1, 2) == Some(x % 0x1_0000)
               case _ => Load(bytes, 1, 4) == Some(x % 0x1_0000_0000)
  {
    LittleParts(x);
    TwoBytes(x);
  }

  lemma TwoBytes(n: int)
    ensures n % 0x1_0000 == n % 0x100 + 0x100 * (n / 0x100 % 0x100)
  {
    TwoBytesUp(n);
    var a := n / 0x100;
    assert n == 0x100 * a + n % 0x100 && a == 0x100 * (n / 0x1_0000) + a % 0x100;
    assert n == 0x1_0000 * (n / 0x1_0000) + (n % 0x100 + 0x100 * (a % 0x100));
  }

  function WriteText(bytes: Bytes): Bytes {
    var n := |bytes|;
    (if n < 0x20 then [0xA0 + n]
     else if n < 0x100 then [0xD9, n]
     else if n < 0x1_0000 then [0xDA] + Little16(n)
     else [0xDB] + Little32(n)) + bytes
  }

  function ArrayHeader(n: nat): Bytes {
    if n < 0x10 then [0x90 + n]
    else if n < 0x1_0000 then [0xDC] + Little16(n)
    else [0xDD] + Little32(n)
  }

  function MapHeader(count: nat): Bytes {
    var n := count / 2;
    if count % 2 != 0 then []
    else if n < 0x10 then [0x80 + n]
    else if n < 0x1_0000 then [0xDE] + Little16(n)
    else [0xDF] + Little32(n)
  }

  function Write(v: Value): Bytes
    decreases v, 2
  {
    match v
    case Integer(x, signed) => WriteInteger(x, signed)
    case Text(bytes) => WriteText(bytes)
    case Array(items) => ArrayHeader(|items|) + WriteAll(items)
    case Map(items) => MapHeader(|items|) + WriteAll(items)
  }

  /** The encodings of `items`, one after the other. */
  function WriteAll(items: seq<Value>): Bytes
    decreases items, 1
  {
    Flatten(Parts(items))
  }

  /** The encoding of each item. */
  function Parts(items: seq<Value>): (parts: seq<Bytes>)
    ensures |parts| == |items| && forall i | 0 <= i < |items| :: parts[i] == Write(items[i])
    decreases items, 0
  {
    seq(|items|, i requires 0 <= i < |items| => Write(items[i]))
  }

  function Flatten(parts: seq<Bytes>): Bytes {
    if parts == [] then []
    else Flatten(parts[..|parts| - 1]) + parts[|parts| - 1]
  }

  /** Which row's first byte a string, an array or a map gets, by its length or count: the row with the count inside the
      first byte, or the one with the shortest count field. */
  function SizedFormat(n: nat, limit: nat, inside: nat, byte: nat, word: nat, long: nat): nat {
    if n < limit then inside else if n < 0x100 then byte else if n < 0x1_0000 then word else long
  }

  /** The count of a header, as its format has it. */
  predicate HoldsCount(bytes: Bytes, row: nat, n: nat) {
    && |bytes| > 0 && InRange(row, bytes[0])
    && |bytes| >= 1 + FormatEntry(row).Size()
    && match FormatEntry(row).Size()
       case 0 => bytes[0] - FormatEntry(row).min == n
       case 1 => Load(bytes, 1, 1) == Some(n)
       case 2 => Load(bytes, 1, 2) == Some(n)
       case _ => Load(bytes, 1, 4) == Some(n)
  }

  lemma CountBytes(n: nat)
    requires IsUint32(n)
    ensures n < 0x1_0000 ==> Load(Little16(n), 0, 2) == Some(n)
    ensures Load(Little32(n), 0, 4) == Some(n)
  {
    LittleParts(n);
    TwoBytes(n);
  }

  lemma LoadBehind(first: Byte, bytes: Bytes, rest: Bytes, size: nat)
    requires |bytes| == size && (size == 1 || size == 2 || size == 4)
    ensures Load([first] + bytes + rest, 1, size) == Load(bytes, 0, size)
    ensures ([first] + bytes + rest)[1 + size..] == rest
  {
  }

  /** A string is written in the format that the table has for its length, and its bytes follow. */
  lemma TextIsWrittenAs(bytes: Bytes)
    requires IsUint32(|bytes|)
    ensures var row := SizedFormat(|bytes|, 0x20, 3, 28, 29, 30);
            && HoldsCount(WriteText(bytes), row, |bytes|) && FormatEntry(row).dataType == STRING
            && WriteText(bytes)[1 + FormatEntry(row).Size()..] == bytes
  {
    var n := |bytes|;
    CountBytes(n);
    if 0x100 <= n < 0x1_0000 {
      LoadBehind(0xDA, Little16(n), bytes, 2);
    } else if n >= 0x1_0000 {
      LoadBehind(0xDB, Little32(n), bytes, 4);
    }
  }

  /** The header of an array is written in the format that the table has for its count. */
  lemma ArrayHeaderIsWrittenAs(n: nat)
    requires IsUint32(n)
    ensures var row := SizedFormat(n, 0x10, 2, 31, 31, 32);
            && HoldsCount(ArrayHeader(n), row, n) && FormatEntry(row).dataType == ARRAY
            && |ArrayHeader(n)| == 1 + FormatEntry(row).Size()
  {
    CountBytes(n);
  }

  /** The header of a map is written in the format that the table has for the number of its pairs. */
  lemma MapHeaderIsWrittenAs(pairs: nat)
    requires IsUint32(pairs)
    ensures var row := SizedFormat(pairs, 0x10, 1, 33, 33, 34);
            && HoldsCount(MapHeader(2 * pairs), row, pairs) && FormatEntry(row).dataType == MAP
            && |MapHeader(2 * pairs)| == 1 + FormatEntry(row).Size()
  {
    CountBytes(pairs);
  }

  lemma PartsOfPrefix(items: seq<Value>, k: nat)
    requires k <= |items|
    ensures Parts(items[..k]) == Parts(items)[..k]
  {
  }
}
