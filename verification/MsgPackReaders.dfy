/**
 Reading encoded values: seeking over one value, the traversal of the dump, numbers and strings.  A reader
 yields nothing when it leaves the buffer or never returns.
 */
module MsgPackReaders {
  import opened Optional
  import opened MsgPack

  // ----- lengths -----------------------------------------------------------------------------

  /** `msgPackReadLength`; a negative size counts low bits of the first byte. */
  function ReadLengthField(data: Bytes, pos: nat, size: int): Option<nat>
    requires pos < |data|
  {
    if size == -7 then Some(data[pos] % 0x80)
    else if size == -5 then Some(data[pos] % 0x20)
    else if size == -4 then Some(data[pos] % 0x10)
    else if size == -1 then Some(data[pos] % 2)
    else if size == 1 || size == 2 || size == 4 then Load(data, pos + 1, size)
    else Some(0)
  }

  function Measure(data: Bytes, pos: nat): nat {
    if pos <= |data| then |data| - pos else 0
  }

  // ----- seek --------------------------------------------------------------------------------

  /** `msgPackSeek`: the position behind the value at `pos`. */
  function Seek(table: Table, data: Bytes, pos: nat): (r: Option<nat>)
    ensures r.Some? ==> r.value > pos && pos < |data|
    decreases Measure(data, pos), 0
  {
    if pos >= |data| then None
    else
      var format := table[data[pos]];
      match ReadLengthField(data, pos, format.parameter)
      case None => None
      case Some(field) =>
        var length := if format.dataType == MAP then 2 * field % 0x1_0000_0000 else field;
        match format.readType
        case Inline => Some(pos + 1)
        case FixedLength => Some(pos + 1 + format.Size())
        case ReadLength => Some(pos + 1 + format.Size() + length)
        case InlineLength => Some(pos + 1 + length)
        case ElementsInline => SeekLoop(table, data, pos + 1, 0, length)
        case ReadElements => SeekLoop(table, data, pos + 1 + format.Size(), 0, length)
  }

  /** The loop of `msgPackSeek` over `length` elements, from counter `i` on.  The counter has 8 bits. */
  function SeekLoop(table: Table, data: Bytes, pos: nat, i: nat, length: nat): (r: Option<nat>)
    ensures r.Some? ==> r.value >= pos
    decreases Measure(data, pos), 1
  {
    if i >= length then Some(pos)
    else
      match Seek(table, data, pos)
      case None => None
      case Some(next) => SeekLoop(table, data, next, (i + 1) % 0x100, length)
  }

  /** The position behind `n` consecutive values. */
  function SeekMany(table: Table, data: Bytes, pos: nat, n: nat): (r: Option<nat>)
    ensures r.Some? ==> r.value >= pos
    decreases n
  {
    if n == 0 then Some(pos)
    else
      match Seek(table, data, pos)
      case None => None
      case Some(next) => SeekMany(table, data, next, n - 1)
  }

  /** Below 256 elements the counter does not wrap, and the loop seeks over every element. */
  lemma {:induction false} ShortLoopSeeksAll(table: Table, data: Bytes, pos: nat, i: nat, length: nat)
    requires i <= length < 0x100
    ensures SeekLoop(table, data, pos, i, length) == SeekMany(table, data, pos, length - i)
    decreases length - i
  {
    var r := Seek(table, data, pos);
    if i < length && r.Some? {
      ShortLoopSeeksAll(table, data, r.value, i + 1, length);
      assert (i + 1) % 0x100 == i + 1;
    }
  }

  /** From 256 elements on the counter wraps before it reaches the length, and the loop never returns. */
  lemma {:induction false} LongLoopNeverReturns(table: Table, data: Bytes, pos: nat, i: nat, length: nat)
    requires i < 0x100 <= length
    ensures SeekLoop(table, data, pos, i, length) == None
    decreases Measure(data, pos)
  {
    if Seek(table, data, pos).Some? {
      LongLoopNeverReturns(table, data, Seek(table, data, pos).value, (i + 1) % 0x100, length);
    }
  }

  /** The loop returns what as many seeks as there are elements return, if and only if they are at most 255. */
  lemma SeekLoopCounts(table: Table, data: Bytes, pos: nat, length: nat)
    ensures SeekLoop(table, data, pos, 0, length) == if length < 0x100 then SeekMany(table, data, pos, length) else None
  {
    if length < 0x100 {
      ShortLoopSeeksAll(table, data, pos, 0, length);
    } else {
      LongLoopNeverReturns(table, data, pos, 0, length);
    }
  }

  /** `msgPackSeek`. */
  method SeekValue(table: Table, data: Bytes, pos: nat) returns (r: Option<nat>)
    ensures r == Seek(table, data, pos)
    decreases Measure(data, pos), 0
  {
    if pos >= |data| {
      return None;
    }
    var format := table[data[pos]];
    var field := ReadLengthField(data, pos, format.parameter);
    if field.None? {
      return None;
    }
    var length := field.value;
    if format.dataType == MAP {
      length := 2 * length % 0x1_0000_0000;
    }
    match format.readType {
      case Inline => r := Some(pos + 1);
      case FixedLength => r := Some(pos + 1 + format.Size());
      case ReadLength => r := Some(pos + 1 + format.Size() + length);
      case InlineLength => r := Some(pos + 1 + length);
      case ElementsInline => r := SeekElements(table, data, pos + 1, length);
      case ReadElements => r := SeekElements(table, data, pos + 1 + format.Size(), length);
    }
  }

  /** The loop of `msgPackSeek` over `length` elements, with its 8-bit counter. */
  method SeekElements(table: Table, data: Bytes, pos: nat, length: nat) returns (r: Option<nat>)
    ensures r == SeekLoop(table, data, pos, 0, length)
    decreases Measure(data, pos), 1
  {
    var current: nat, i: nat := pos, 0;
    while i < length
      invariant i < 0x100 && current >= pos
      invariant SeekLoop(table, data, current, i, length) == SeekLoop(table, data, pos, 0, length)
      decreases Measure(data, current)
    {
      var next := SeekValue(table, data, current);
      if next.None? {
        return None;
      }
      current := next.value;
      i := (i + 1) % 0x100;
    }
    return Some(current);
  }

  // ----- dump --------------------------------------------------------------------------------

  /** Where the traversal of `_msgPackDump` ends; its loops count with 32 bits, and walk over a map pair by
      pair. */
  function DumpEnd(table: Table, data: Bytes, pos: nat): (r: Option<nat>)
    ensures r.Some? ==> r.value > pos
    decreases Measure(data, pos), 0
  {
    if pos >= |data| then None
    else
      var format := table[data[pos]];
      match ReadLengthField(data, pos, format.parameter)
      case None => None
      case Some(length) =>
        var next :=
          match format.readType
          case Inline => pos + 1
          case InlineLength => pos + 1 + length
          case FixedLength => pos + 1 + format.Size()
          case ReadLength => pos + 1 + format.Size() + length
          case ElementsInline => pos + 1
          case ReadElements => pos + 1 + format.Size();
        match format.dataType
        case ARRAY => DumpMany(table, data, next, length)
        case MAP => DumpMany(table, data, next, 2 * length)
        case _ => Some(next)
  }

  function DumpMany(table: Table, data: Bytes, pos: nat, n: nat): (r: Option<nat>)
    ensures r.Some? ==> r.value >= pos
    decreases Measure(data, pos), n
  {
    if n == 0 then Some(pos)
    else
      match DumpEnd(table, data, pos)
      case None => None
      case Some(next) => DumpMany(table, data, next, n - 1)
  }

  // ----- single values -----------------------------------------------------------------------

  /** An 8-, 16- or 32-bit length field, or a length in the first byte, says `n`; other formats have no such field. */
  predicate HasLength(data: Bytes, pos: nat, n: nat)
    requires pos < |data|
  {
    var first := data[pos];
    if 0xA0 <= first <= 0xBF then n == first - 0xA0
    else if first == 0xC4 || first == 0xC7 || first == 0xD9 then Load(data, pos + 1, 1) == Some(n)
    else if first == 0xC5 || first == 0xC8 || first == 0xDA then Load(data, pos + 1, 2) == Some(n)
    else if first == 0xC6 || first == 0xC9 || first == 0xDB then Load(data, pos + 1, 4) == Some(n)
    else n == 0
  }

  predicate IsExtension(first: Byte) {
    0xC7 <= first <= 0xC9 || 0xD4 <= first <= 0xD8
  }

  /** What a value that is no array or map takes up, with its first byte and a length field that says `n` (MessagePack
      specification, "Formats").  Extensions have one more byte for their type. */
  function SpecifiedSize(first: Byte, n: nat): nat {
    match first
    case 0xC4 => 2 + n
    case 0xC5 => 3 + n
    case 0xC6 => 5 + n
    case 0xC7 => 3 + n
    case 0xC8 => 4 + n
    case 0xC9 => 6 + n
    case 0xCA => 5
    case 0xCB => 9
    case 0xCC => 2
    case 0xCD => 3
    case 0xCE => 5
    case 0xCF => 9
    case 0xD0 => 2
    case 0xD1 => 3
    case 0xD2 => 5
    case 0xD3 => 9
    case 0xD4 => 3
    case 0xD5 => 4
    case 0xD6 => 6
    case 0xD7 => 10
    case 0xD8 => 18
    case 0xD9 => 2 + n
    case 0xDA => 3 + n
    case 0xDB => 5 + n
    case _ => if 0xA0 <= first <= 0xBF then 1 + n else 1
  }

  lemma RowOf(table: Table, first: Byte, row: nat)
    requires Initialized(table) && InRange(row, first)
    ensures table[first] == FormatEntry(row)
  {
  }

  lemma SingleRow(first: Byte) returns (row: nat)
    requires !(0x80 <= first <= 0x9F) && !(0xDC <= first <= 0xDF)
    ensures InRange(row, first)
  {
    row := if first <= 0x7F then 0 else if first <= 0xBF then 3
           else if first <= 0xC1 then first - 0xBC else if first <= 0xC3 then 6
           else if first <= 0xDB then first - 0xBD else 35;
  }

  /** How far seek and dump step over a value of this format, which is no array or map, with this length. */
  function StepSize(format: Format, length: nat): nat {
    match format.readType
    case FixedLength => 1 + format.Size()
    case ReadLength => 1 + format.Size() + length
    case InlineLength => 1 + length
    case _ => 1
  }

  lemma SingleStep(table: Table, data: Bytes, pos: nat, format: Format, length: nat)
    requires pos < |data| && table[data[pos]] == format && format.dataType != ARRAY && format.dataType != MAP
    requires !format.readType.ElementsInline? && !format.readType.ReadElements?
    requires ReadLengthField(data, pos, format.parameter) == Some(length)
    ensures Seek(table, data, pos) == DumpEnd(table, data, pos) == Some(pos + StepSize(format, length))
  {
  }

  /** What the readers take for the length of the value. */
  lemma SingleLength(data: Bytes, pos: nat, row: nat, n: nat) returns (length: nat)
    requires pos < |data| && HasLength(data, pos, n) && pos + SpecifiedSize(data[pos], n) <= |data|
    requires !(0x80 <= data[pos] <= 0x9F) && !(0xDC <= data[pos] <= 0xDF) && InRange(row, data[pos])
    ensures ReadLengthField(data, pos, FormatEntry(row).parameter) == Some(length)
    ensures FormatEntry(row).readType in {ReadLength, InlineLength} ==> length == n
  {
    assert ReadLengthField(data, pos, FormatEntry(row).parameter).Some?;
    length := ReadLengthField(data, pos, FormatEntry(row).parameter).value;
  }

  lemma SingleSize(row: nat, first: Byte, length: nat, n: nat)
    requires !(0x80 <= first <= 0x9F) && !(0xDC <= first <= 0xDF) && InRange(row, first)
    requires FormatEntry(row).readType in {ReadLength, InlineLength} ==> length == n
    ensures var format := FormatEntry(row);
            && format.dataType != ARRAY && format.dataType != MAP
            && !format.readType.ElementsInline? && !format.readType.ReadElements?
    ensures StepSize(FormatEntry(row), length) == SpecifiedSize(first, n) - if IsExtension(first) then 1 else 0
  {
  }

  /** Seek and dump step over a single value as the specification has it exactly if it is no extension; of an extension
      they leave the last byte. */
  lemma SingleValueIsSpecifiedIff(table: Table, data: Bytes, pos: nat, n: nat)
    requires Initialized(table) && pos < |data| && HasLength(data, pos, n)
    requires !(0x80 <= data[pos] <= 0x9F) && !(0xDC <= data[pos] <= 0xDF)
    requires pos + SpecifiedSize(data[pos], n) <= |data|
    ensures Seek(table, data, pos) == Some(pos + SpecifiedSize(data[pos], n)) <==> !IsExtension(data[pos])
    ensures DumpEnd(table, data, pos) == Seek(table, data, pos)
    ensures IsExtension(data[pos]) ==> Seek(table, data, pos) == Some(pos + SpecifiedSize(data[pos], n) - 1)
  {
    var row := SingleRow(data[pos]);
    RowOf(table, data[pos], row);
    var length := SingleLength(data, pos, row, n);
    SingleSize(row, data[pos], length, n);
    SingleStep(table, data, pos, FormatEntry(row), length);
  }

  /** Every container has at most 255 children. */
  predicate Small(v: Value) {
    match v
    case Integer(_, _) => true
    case Text(_) => true
    case Array(items) => |items| < 0x100 && AllSmall(items)
    case Map(items) => |items| < 0x100 && AllSmall(items)
  }

  predicate AllSmall(items: seq<Value>) {
    forall i | 0 <= i < |items| :: Small(items[i])
  }

  // ----- what stands where -------------------------------------------------------------------

  lemma AtPrefix(data: Bytes, pos: nat, a: Bytes, b: Bytes)
    requires At(data, pos, a + b)
    ensures At(data, pos, a) && At(data, pos + |a|, b)
  {
    assert data[pos..pos + |a|] == data[pos..pos + |a + b|][..|a|] == a;
    assert data[pos + |a|..pos + |a| + |b|] == data[pos..pos + |a + b|][|a|..] == b;
  }

  lemma AtByte(data: Bytes, pos: nat, bytes: Bytes, i: nat)
    requires At(data, pos, bytes) && i < |bytes|
    ensures pos + i < |data| && data[pos + i] == bytes[i]
  {
    assert data[pos..pos + |bytes|][i] == data[pos + i];
  }

  lemma Load8(data: Bytes, pos: nat, tag: Byte, n: Byte)
    requires At(data, pos, [tag, n])
    ensures pos < |data| && data[pos] == tag && Load(data, pos + 1, 1) == Some(n)
  {
    AtByte(data, pos, [tag, n], 0);
    AtByte(data, pos, [tag, n], 1);
  }

  lemma Load16(data: Bytes, pos: nat, tag: Byte, n: int)
    requires At(data, pos, [tag] + Little16(n))
    ensures pos < |data| && data[pos] == tag
    ensures Load(data, pos + 1, 2) == Some(n % 0x1_0000)
    ensures 0 <= n < 0x1_0000 ==> Load(data, pos + 1, 2) == Some(n)
  {
    var bytes := [tag] + Little16(n);
    AtByte(data, pos, bytes, 0);
    AtByte(data, pos, bytes, 1);
    AtByte(data, pos, bytes, 2);
    TwoParts(n);
  }

  lemma TwoParts(n: int)
    ensures n % 0x1_0000 == n % 0x100 + 0x100 * (n / 0x100 % 0x100)
  {
    TwoBytesUp(n);
    assert n == 0x1_0000 * (n / 0x1_0000) + (0x100 * (n / 0x100 % 0x100) + n % 0x100);
  }

  lemma Load32(data: Bytes, pos: nat, tag: Byte, n: int)
    requires At(data, pos, [tag] + Little32(n))
    ensures pos < |data| && data[pos] == tag
    ensures Load(data, pos + 1, 4) == Some(n % 0x1_0000_0000)
    ensures IsUint32(n) ==> Load(data, pos + 1, 4) == Some(n)
  {
    var bytes := [tag] + Little32(n);
    AtByte(data, pos, bytes, 0);
    AtByte(data, pos, bytes, 1);
    AtByte(data, pos, bytes, 2);
    AtByte(data, pos, bytes, 3);
    AtByte(data, pos, bytes, 4);
    LittleParts(n);
  }

  /** The row of the table that a first byte has. */
  lemma Row(table: Table, i: nat, b: Byte)
    requires Initialized(table) && InRange(i, b)
    ensures table[b] == FormatEntry(i)
  {
  }

  /** What a reader finds at the head of an encoded value. */
  ghost predicate Reads(table: Table, data: Bytes, pos: nat, dataType: DataType, inline: ReadType, sized: ReadType,
                        length: nat, headerSize: nat)
  {
    && pos < |data|
    && var format := table[data[pos]];
       && format.dataType == dataType
       && format.readType == (if headerSize == 1 then inline else sized)
       && ReadLengthField(data, pos, format.parameter) == Some(length)
       && headerSize == 1 + format.Size()
  }

  /** The head of a value whose length is in the first byte. */
  lemma ReadsInline(table: Table, data: Bytes, pos: nat, row: nat, length: nat, other: ReadType)
    requires Initialized(table) && pos < |data| && InRange(row, data[pos])
    requires FormatEntry(row).parameter < 0 && ReadLengthField(data, pos, FormatEntry(row).parameter) == Some(length)
    ensures var f := FormatEntry(row);
            Reads(table, data, pos, f.dataType, f.readType, other, length, 1)
  {
    Row(table, row, data[pos]);
  }

  /** The head of a value whose length is a number behind the first byte. */
  lemma ReadsSized(table: Table, data: Bytes, pos: nat, row: nat, length: nat, other: ReadType)
    requires Initialized(table) && pos < |data| && InRange(row, data[pos])
    requires FormatEntry(row).parameter > 0 && ReadLengthField(data, pos, FormatEntry(row).parameter) == Some(length)
    ensures var f := FormatEntry(row);
            Reads(table, data, pos, f.dataType, other, f.readType, length, 1 + f.Size())
  {
    Row(table, row, data[pos]);
  }

  lemma ArrayHeaderRead(table: Table, data: Bytes, pos: nat, n: nat)
    requires Initialized(table) && IsUint32(n) && At(data, pos, ArrayHeader(n))
    ensures Reads(table, data, pos, ARRAY, ElementsInline, ReadElements, n, |ArrayHeader(n)|)
  {
    if n < 0x10 {
      AtByte(data, pos, ArrayHeader(n), 0);
      ReadsInline(table, data, pos, 2, n, ReadElements);
    } else if n < 0x1_0000 {
      Load16(data, pos, 0xDC, n);
      ReadsSized(table, data, pos, 31, n, ElementsInline);
    } else {
      Load32(data, pos, 0xDD, n);
      ReadsSized(table, data, pos, 32, n, ElementsInline);
    }
  }

  lemma MapHeaderRead(table: Table, data: Bytes, pos: nat, count: nat)
    requires Initialized(table) && IsUint32(count) && count % 2 == 0 && At(data, pos, MapHeader(count))
    ensures Reads(table, data, pos, MAP, ElementsInline, ReadElements, count / 2, |MapHeader(count)|)
  {
    var n := count / 2;
    if n < 0x10 {
      AtByte(data, pos, MapHeader(count), 0);
      ReadsInline(table, data, pos, 1, n, ReadElements);
    } else if n < 0x1_0000 {
      Load16(data, pos, 0xDE, n);
      ReadsSized(table, data, pos, 33, n, ElementsInline);
    } else {
      Load32(data, pos, 0xDF, n);
      ReadsSized(table, data, pos, 34, n, ElementsInline);
    }
  }

  /** The part of a string's encoding in front of its bytes. */
  function TextHeader(n: nat): Bytes {
    if n < 0x20 then [0xA0 + n]
    else if n < 0x100 then [0xD9, n]
    else if n < 0x1_0000 then [0xDA] + Little16(n)
    else [0xDB] + Little32(n)
  }

  lemma TextHeaderRead(table: Table, data: Bytes, pos: nat, n: nat)
    requires Initialized(table) && IsUint32(n) && At(data, pos, TextHeader(n))
    ensures Reads(table, data, pos, STRING, InlineLength, ReadLength, n, |TextHeader(n)|)
  {
    if n < 0x20 {
      AtByte(data, pos, TextHeader(n), 0);
      ReadsInline(table, data, pos, 3, n, ReadLength);
    } else if n < 0x100 {
      Load8(data, pos, 0xD9, n);
      ReadsSized(table, data, pos, 28, n, InlineLength);
    } else if n < 0x1_0000 {
      Load16(data, pos, 0xDA, n);
      ReadsSized(table, data, pos, 29, n, InlineLength);
    } else {
      Load32(data, pos, 0xDB, n);
      ReadsSized(table, data, pos, 30, n, InlineLength);
    }
  }

  /** The row of the format that an integer is written in. */
  function IntegerRow(first: Byte): nat {
    if first < 0x80 then 0 else if first >= 0xE0 then 35 else if 0xCC <= first <= 0xD2 then first - 0xCC + 15 else 4
  }

  lemma IntegerRead(table: Table, data: Bytes, pos: nat, x: int, signed: bool)
    requires Initialized(table) && IsInt32(x) && At(data, pos, WriteInteger(x, signed))
    ensures pos < |data| && data[pos] == WriteInteger(x, signed)[0]
    ensures InRange(IntegerRow(data[pos]), data[pos]) && table[data[pos]] == FormatEntry(IntegerRow(data[pos]))
    ensures var format := table[data[pos]];
            && format.dataType == INTEGER
            && (format.readType == Inline || format.readType == FixedLength)
            && ReadLengthField(data, pos, format.parameter).Some?
            && |WriteInteger(x, signed)| == 1 + format.Size()
            && (format.readType == Inline ==> |WriteInteger(x, signed)| == 1)
  {
    var bytes := WriteInteger(x, signed);
    AtByte(data, pos, bytes, 0);
    Row(table, IntegerRow(bytes[0]), bytes[0]);
  }

  // ----- walking over consecutive values -----------------------------------------------------

  /** Where the first `k` of consecutive encodings end. */
  function Offset(pos: nat, parts: seq<Bytes>, k: nat): nat
    requires k <= |parts|
  {
    pos + |Flatten(parts[..k])|
  }

  /** Each of consecutive encodings stands at its offset. */
  lemma {:induction false} PartAt(data: Bytes, pos: nat, parts: seq<Bytes>, k: nat)
    requires At(data, pos, Flatten(parts)) && k < |parts|
    ensures At(data, Offset(pos, parts, k), parts[k])
    ensures Offset(pos, parts, k + 1) == Offset(pos, parts, k) + |parts[k]|
    decreases |parts|
  {
    var n := |parts| - 1;
    AtPrefix(data, pos, Flatten(parts[..n]), parts[n]);
    assert parts[..k + 1][..k] == parts[..k] && parts[..k + 1][k] == parts[k];
    if k < n {
      PartAt(data, pos, parts[..n], k);
      assert parts[..n][..k] == parts[..k];
    }
  }

  /** A walk ends at `to`, or does not return. */
  predicate Walks(r: Option<nat>, lands: bool, to: nat) {
    r == if lands then Some(to) else None
  }

  predicate AllTrue(lands: seq<bool>) {
    forall k | 0 <= k < |lands| :: lands[k]
  }

  /** `n` steps from `pos` on, as long as every step returns. */
  function Iterate(step: nat -> Option<nat>, pos: nat, n: nat): Option<nat>
    decreases n
  {
    if n == 0 then Some(pos)
    else
      match step(pos)
      case None => None
      case Some(next) => Iterate(step, next, n - 1)
  }

  function Seeker(table: Table, data: Bytes): nat -> Option<nat> {
    (pos: nat) => Seek(table, data, pos)
  }

  function Dumper(table: Table, data: Bytes): nat -> Option<nat> {
    (pos: nat) => DumpEnd(table, data, pos)
  }

  lemma {:induction false} SeekManyIterates(table: Table, data: Bytes, pos: nat, n: nat)
    ensures SeekMany(table, data, pos, n) == Iterate(Seeker(table, data), pos, n)
    decreases n
  {
    if n > 0 && Seek(table, data, pos).Some? {
      SeekManyIterates(table, data, Seek(table, data, pos).value, n - 1);
    }
  }

  lemma {:induction false} DumpManyIterates(table: Table, data: Bytes, pos: nat, n: nat)
    ensures DumpMany(table, data, pos, n) == Iterate(Dumper(table, data), pos, n)
    decreases n
  {
    if n > 0 && DumpEnd(table, data, pos).Some? {
      DumpManyIterates(table, data, DumpEnd(table, data, pos).value, n - 1);
    }
  }

  /** Repeated steps go through `stops` as long as every single one does. */
  lemma {:induction false} StepThroughStops(step: nat -> Option<nat>, stops: seq<nat>, lands: seq<bool>)
    requires |stops| == |lands| + 1
    requires forall k | 0 <= k < |lands| :: Walks(step(stops[k]), lands[k], stops[k + 1])
    ensures Walks(Iterate(step, stops[0], |lands|), AllTrue(lands), stops[|lands|])
    decreases |lands|
  {
    if lands != [] {
      assert Walks(step(stops[0]), lands[0], stops[1]);
      if lands[0] {
        var stops', lands' := stops[1..], lands[1..];
        forall k | 0 <= k < |lands'| ensures Walks(step(stops'[k]), lands'[k], stops'[k + 1]) {
          assert Walks(step(stops[k + 1]), lands[k + 1], stops[k + 2]);
        }
        StepThroughStops(step, stops', lands');
        assert AllTrue(lands') <==> AllTrue(lands) by {
          assert forall k | 1 <= k < |lands| :: lands[k] == lands'[k - 1];
        }
      }
    }
  }

  /** The positions between consecutive encodings. */
  function Stops(pos: nat, parts: seq<Bytes>): (stops: seq<nat>)
    ensures |stops| == |parts| + 1 && stops[0] == pos && stops[|parts|] == pos + |Flatten(parts)|
    ensures forall k | 0 <= k <= |parts| :: stops[k] == Offset(pos, parts, k)
  {
    assert parts[..|parts|] == parts && parts[..0] == [];
    seq(|parts| + 1, k requires 0 <= k <= |parts| => Offset(pos, parts, k))
  }

  /** Consecutive encodings stand between consecutive `stops`. */
  ghost predicate Placed(data: Bytes, stops: seq<nat>, parts: seq<Bytes>) {
    && |stops| == |parts| + 1
    && forall k | 0 <= k < |parts| :: PlacedAt(data, stops[k], parts[k], stops[k + 1])
  }

  predicate PlacedAt(data: Bytes, start: nat, part: Bytes, end: nat) {
    At(data, start, part) && end == start + |part|
  }

  /** Where consecutive encodings stand. */
  lemma PlaceParts(data: Bytes, pos: nat, parts: seq<Bytes>) returns (stops: seq<nat>)
    requires At(data, pos, Flatten(parts))
    ensures Placed(data, stops, parts) && stops[0] == pos && stops[|parts|] == pos + |Flatten(parts)|
    ensures forall k | 0 <= k <= |parts| :: stops[k] == Offset(pos, parts, k)
  {
    stops := Stops(pos, parts);
    forall k | 0 <= k < |parts| ensures PlacedAt(data, stops[k], parts[k], stops[k + 1]) {
      PartAt(data, pos, parts, k);
    }
  }

  /** Where the header and the children of an array stand. */
  lemma PlaceArray(data: Bytes, pos: nat, items: seq<Value>) returns (stops: seq<nat>)
    requires At(data, pos, Write(Array(items)))
    ensures At(data, pos, ArrayHeader(|items|)) && Placed(data, stops, Parts(items))
    ensures stops[0] == pos + |ArrayHeader(|items|)| && stops[|items|] == pos + |Write(Array(items))|
  {
    var header, body := ArrayHeader(|items|), WriteAll(items);
    AtPrefix(data, pos, header, body);
    stops := PlaceParts(data, pos + |header|, Parts(items));
  }

  /** Where the header, the keys and the values of a map stand. */
  lemma PlaceMap(data: Bytes, pos: nat, items: seq<Value>) returns (stops: seq<nat>)
    requires At(data, pos, Write(Map(items)))
    ensures At(data, pos, MapHeader(|items|)) && Placed(data, stops, Parts(items))
    ensures stops[0] == pos + |MapHeader(|items|)| && stops[|items|] == pos + |Write(Map(items))|
  {
    var header, body := MapHeader(|items|), WriteAll(items);
    AtPrefix(data, pos, header, body);
    stops := PlaceParts(data, pos + |header|, Parts(items));
  }

  // ----- seek lands behind the value ---------------------------------------------------------

  lemma SeekInteger(table: Table, data: Bytes, pos: nat, x: int, signed: bool)
    requires Initialized(table) && IsInt32(x) && At(data, pos, WriteInteger(x, signed))
    ensures Seek(table, data, pos) == DumpEnd(table, data, pos) == Some(pos + |WriteInteger(x, signed)|)
  {
    IntegerRead(table, data, pos, x, signed);
  }

  lemma SeekText(table: Table, data: Bytes, pos: nat, bytes: Bytes)
    requires Initialized(table) && IsUint32(|bytes|) && At(data, pos, WriteText(bytes))
    ensures Seek(table, data, pos) == DumpEnd(table, data, pos) == Some(pos + |WriteText(bytes)|)
  {
    AtPrefix(data, pos, TextHeader(|bytes|), bytes);
    TextHeaderRead(table, data, pos, |bytes|);
  }

  lemma SeekArray(table: Table, data: Bytes, pos: nat, n: nat)
    requires Initialized(table) && IsUint32(n) && At(data, pos, ArrayHeader(n))
    ensures Seek(table, data, pos)
            == if n < 0x100 then Iterate(Seeker(table, data), pos + |ArrayHeader(n)|, n) else None
    ensures DumpEnd(table, data, pos) == Iterate(Dumper(table, data), pos + |ArrayHeader(n)|, n)
  {
    ArrayHeaderRead(table, data, pos, n);
    SeekItems(table, data, pos, n, pos + |ArrayHeader(n)|);
    SeekManyIterates(table, data, pos + |ArrayHeader(n)|, n);
    DumpManyIterates(table, data, pos + |ArrayHeader(n)|, n);
  }

  lemma SeekItems(table: Table, data: Bytes, pos: nat, n: nat, next: nat)
    requires IsUint32(n) && next >= pos
    requires Reads(table, data, pos, ARRAY, ElementsInline, ReadElements, n, next - pos)
    ensures Seek(table, data, pos) == if n < 0x100 then SeekMany(table, data, next, n) else None
    ensures DumpEnd(table, data, pos) == DumpMany(table, data, next, n)
  {
    SeekLoopCounts(table, data, next, n);
  }

  lemma SeekMap(table: Table, data: Bytes, pos: nat, count: nat)
    requires Initialized(table) && IsUint32(count) && count % 2 == 0 && At(data, pos, MapHeader(count))
    ensures Seek(table, data, pos)
            == if count < 0x100 then Iterate(Seeker(table, data), pos + |MapHeader(count)|, count) else None
    ensures DumpEnd(table, data, pos) == Iterate(Dumper(table, data), pos + |MapHeader(count)|, count)
  {
    MapHeaderRead(table, data, pos, count);
    SeekPairs(table, data, pos, count, pos + |MapHeader(count)|);
    SeekManyIterates(table, data, pos + |MapHeader(count)|, count);
    DumpManyIterates(table, data, pos + |MapHeader(count)|, count);
  }

  lemma SeekPairs(table: Table, data: Bytes, pos: nat, count: nat, next: nat)
    requires IsUint32(count) && count % 2 == 0 && next >= pos
    requires Reads(table, data, pos, MAP, ElementsInline, ReadElements, count / 2, next - pos)
    ensures Seek(table, data, pos) == if count < 0x100 then SeekMany(table, data, next, count) else None
    ensures DumpEnd(table, data, pos) == DumpMany(table, data, next, count)
  {
    SeekLoopCounts(table, data, next, count);
  }

  /** Seeking lands exactly one past an encoded value, whatever follows it, if all its containers have at
      most 255 children, and never returns otherwise. */
  lemma {:induction false} SeekLands(table: Table, data: Bytes, pos: nat, v: Value)
    requires Initialized(table) && Valid(v) && At(data, pos, Write(v))
    ensures Walks(Seek(table, data, pos), Small(v), pos + |Write(v)|)
    decreases v, 2
  {
    match v
    case Integer(_, _) => SeekIntegerValue(table, data, pos, v);
    case Text(_) => SeekTextValue(table, data, pos, v);
    case Array(_) => SeekArrayValue(table, data, pos, v);
    case Map(_) => SeekMapValue(table, data, pos, v);
  }

  lemma SeekIntegerValue(table: Table, data: Bytes, pos: nat, v: Value)
    requires Initialized(table) && v.Integer? && Valid(v) && At(data, pos, Write(v))
    ensures Walks(Seek(table, data, pos), Small(v), pos + |Write(v)|)
  {
    SeekInteger(table, data, pos, v.value, v.signed);
  }

  lemma SeekTextValue(table: Table, data: Bytes, pos: nat, v: Value)
    requires Initialized(table) && v.Text? && Valid(v) && At(data, pos, Write(v))
    ensures Walks(Seek(table, data, pos), Small(v), pos + |Write(v)|)
  {
    SeekText(table, data, pos, v.bytes);
  }

  lemma {:induction false} SeekArrayValue(table: Table, data: Bytes, pos: nat, v: Value)
    requires Initialized(table) && v.Array? && Valid(v) && At(data, pos, Write(v))
    ensures Walks(Seek(table, data, pos), Small(v), pos + |Write(v)|)
    decreases v, 1
  {
    var stops := PlaceArray(data, pos, v.items);
    SeekArrayLands(table, data, pos, v.items, stops);
  }

  lemma {:induction false} SeekMapValue(table: Table, data: Bytes, pos: nat, v: Value)
    requires Initialized(table) && v.Map? && Valid(v) && At(data, pos, Write(v))
    ensures Walks(Seek(table, data, pos), Small(v), pos + |Write(v)|)
    decreases v, 1
  {
    var stops := PlaceMap(data, pos, v.items);
    SeekMapLands(table, data, pos, v.items, stops);
  }

  lemma {:induction false} SeekArrayLands(table: Table, data: Bytes, pos: nat, items: seq<Value>, stops: seq<nat>)
    requires Initialized(table) && IsUint32(|items|) && AllValid(items)
    requires At(data, pos, ArrayHeader(|items|)) && Placed(data, stops, Parts(items))
             && stops[0] == pos + |ArrayHeader(|items|)|
    ensures Walks(Seek(table, data, pos), |items| < 0x100 && AllSmall(items), stops[|items|])
    decreases items, 5
  {
    SeekArray(table, data, pos, |items|);
    SeekManyLands(table, data, stops, items);
  }

  lemma {:induction false} SeekMapLands(table: Table, data: Bytes, pos: nat, items: seq<Value>, stops: seq<nat>)
    requires Initialized(table) && IsUint32(|items|) && |items| % 2 == 0 && AllValid(items)
    requires At(data, pos, MapHeader(|items|)) && Placed(data, stops, Parts(items))
             && stops[0] == pos + |MapHeader(|items|)|
    ensures Walks(Seek(table, data, pos), |items| < 0x100 && AllSmall(items), stops[|items|])
    decreases items, 5
  {
    SeekMap(table, data, pos, |items|);
    SeekManyLands(table, data, stops, items);
  }

  /** Whether each item can be sought over. */
  function SmallOnes(items: seq<Value>): (lands: seq<bool>)
    ensures |lands| == |items| && forall k | 0 <= k < |items| :: lands[k] == Small(items[k])
    ensures AllTrue(lands) <==> AllSmall(items)
  {
    seq(|items|, k requires 0 <= k < |items| => Small(items[k]))
  }

  lemma {:induction false} SeekAt(table: Table, data: Bytes, start: nat, v: Value, end: nat)
    requires Initialized(table) && Valid(v) && PlacedAt(data, start, Write(v), end)
    ensures Walks(Seeker(table, data)(start), Small(v), end)
    decreases v, 3
  {
    SeekLands(table, data, start, v);
  }

  lemma {:induction false} SeekManyLands(table: Table, data: Bytes, stops: seq<nat>, items: seq<Value>)
    requires Initialized(table) && AllValid(items) && Placed(data, stops, Parts(items))
    ensures Walks(Iterate(Seeker(table, data), stops[0], |items|), AllSmall(items), stops[|items|])
    decreases items, 4
  {
    var step, parts, lands := Seeker(table, data), Parts(items), SmallOnes(items);
    forall k | 0 <= k < |items| ensures Walks(step(stops[k]), lands[k], stops[k + 1]) {
      assert PlacedAt(data, stops[k], parts[k], stops[k + 1]);
      SeekAt(table, data, stops[k], items[k], stops[k + 1]);
    }
    StepThroughStops(step, stops, lands);
  }

  // ----- the dump ends behind the value ------------------------------------------------------

  /** The dump's traversal ends exactly one past any encoded value, without a bound on its containers. */
  lemma {:induction false} DumpLands(table: Table, data: Bytes, pos: nat, v: Value)
    requires Initialized(table) && Valid(v) && At(data, pos, Write(v))
    ensures Walks(DumpEnd(table, data, pos), true, pos + |Write(v)|)
    decreases v, 2
  {
    match v
    case Integer(_, _) => DumpIntegerValue(table, data, pos, v);
    case Text(_) => DumpTextValue(table, data, pos, v);
    case Array(_) => DumpArrayValue(table, data, pos, v);
    case Map(_) => DumpMapValue(table, data, pos, v);
  }

  lemma DumpIntegerValue(table: Table, data: Bytes, pos: nat, v: Value)
    requires Initialized(table) && v.Integer? && Valid(v) && At(data, pos, Write(v))
    ensures Walks(DumpEnd(table, data, pos), true, pos + |Write(v)|)
  {
    SeekInteger(table, data, pos, v.value, v.signed);
  }

  lemma DumpTextValue(table: Table, data: Bytes, pos: nat, v: Value)
    requires Initialized(table) && v.Text? && Valid(v) && At(data, pos, Write(v))
    ensures Walks(DumpEnd(table, data, pos), true, pos + |Write(v)|)
  {
    SeekText(table, data, pos, v.bytes);
  }

  lemma {:induction false} DumpArrayValue(table: Table, data: Bytes, pos: nat, v: Value)
    requires Initialized(table) && v.Array? && Valid(v) && At(data, pos, Write(v))
    ensures Walks(DumpEnd(table, data, pos), true, pos + |Write(v)|)
    decreases v, 1
  {
    var stops := PlaceArray(data, pos, v.items);
    DumpArrayLands(table, data, pos, v.items, stops);
  }

  lemma {:induction false} DumpMapValue(table: Table, data: Bytes, pos: nat, v: Value)
    requires Initialized(table) && v.Map? && Valid(v) && At(data, pos, Write(v))
    ensures Walks(DumpEnd(table, data, pos), true, pos + |Write(v)|)
    decreases v, 1
  {
    var stops := PlaceMap(data, pos, v.items);
    DumpMapLands(table, data, pos, v.items, stops);
  }

  lemma {:induction false} DumpArrayLands(table: Table, data: Bytes, pos: nat, items: seq<Value>, stops: seq<nat>)
    requires Initialized(table) && IsUint32(|items|) && AllValid(items)
    requires At(data, pos, ArrayHeader(|items|)) && Placed(data, stops, Parts(items))
             && stops[0] == pos + |ArrayHeader(|items|)|
    ensures Walks(DumpEnd(table, data, pos), true, stops[|items|])
    decreases items, 5
  {
    SeekArray(table, data, pos, |items|);
    DumpManyLands(table, data, stops, items);
  }

  lemma {:induction false} DumpMapLands(table: Table, data: Bytes, pos: nat, items: seq<Value>, stops: seq<nat>)
    requires Initialized(table) && IsUint32(|items|) && |items| % 2 == 0 && AllValid(items)
    requires At(data, pos, MapHeader(|items|)) && Placed(data, stops, Parts(items))
             && stops[0] == pos + |MapHeader(|items|)|
    ensures Walks(DumpEnd(table, data, pos), true, stops[|items|])
    decreases items, 5
  {
    SeekMap(table, data, pos, |items|);
    DumpManyLands(table, data, stops, items);
  }

  lemma {:induction false} DumpAt(table: Table, data: Bytes, start: nat, v: Value, end: nat)
    requires Initialized(table) && Valid(v) && PlacedAt(data, start, Write(v), end)
    ensures Walks(Dumper(table, data)(start), true, end)
    decreases v, 3
  {
    DumpLands(table, data, start, v);
  }

  lemma {:induction false} DumpManyLands(table: Table, data: Bytes, stops: seq<nat>, items: seq<Value>)
    requires Initialized(table) && AllValid(items) && Placed(data, stops, Parts(items))
    ensures Walks(Iterate(Dumper(table, data), stops[0], |items|), true, stops[|items|])
    decreases items, 4
  {
    var step, parts, lands := Dumper(table, data), Parts(items), seq(|items|, _ => true);
    forall k | 0 <= k < |items| ensures Walks(step(stops[k]), lands[k], stops[k + 1]) {
      assert PlacedAt(data, stops[k], parts[k], stops[k + 1]);
      DumpAt(table, data, stops[k], items[k], stops[k + 1]);
    }
    StepThroughStops(step, stops, lands);
  }

  // ----- visiting the children ---------------------------------------------------------------

  /** `msgPackReadArraySize`: the element count and the position of the first element. */
  function ReadArraySize(table: Table, data: Bytes, pos: nat): Option<(nat, nat)>
    requires pos < |data|
  {
    var format := table[data[pos]];
    if format.dataType != ARRAY then None
    else
      match ReadLengthField(data, pos, format.parameter)
      case None => None
      case Some(n) => Some((n, pos + 1 + format.Size()))
  }

  /** `msgPackReadMapSize`: the pair count and the position of the first key. */
  function ReadMapSize(table: Table, data: Bytes, pos: nat): Option<(nat, nat)>
    requires pos < |data|
  {
    var format := table[data[pos]];
    if format.dataType != MAP then None
    else
      match ReadLengthField(data, pos, format.parameter)
      case None => None
      case Some(n) => Some((n, pos + 1 + format.Size()))
  }

  lemma ArraySizeRead(table: Table, data: Bytes, pos: nat, n: nat, next: nat)
    requires Initialized(table) && IsUint32(n) && At(data, pos, ArrayHeader(n)) && next == pos + |ArrayHeader(n)|
    ensures pos < |data| && ReadArraySize(table, data, pos) == Some((n, next))
  {
    ArrayHeaderRead(table, data, pos, n);
  }

  lemma MapSizeRead(table: Table, data: Bytes, pos: nat, count: nat, next: nat)
    requires Initialized(table) && IsUint32(count) && count % 2 == 0
    requires At(data, pos, MapHeader(count)) && next == pos + |MapHeader(count)|
    ensures pos < |data| && ReadMapSize(table, data, pos) == Some((count / 2, next))
  {
    MapHeaderRead(table, data, pos, count);
  }

  /** Seeking `k` times from the first of consecutive encodings stands at number `k`. */
  lemma SeekToChild(table: Table, data: Bytes, stops: seq<nat>, items: seq<Value>, k: nat)
    requires Initialized(table) && AllValid(items) && Placed(data, stops, Parts(items))
    requires k < |items| && AllSmall(items[..k])
    ensures SeekMany(table, data, stops[0], k) == Some(stops[k]) && At(data, stops[k], Write(items[k]))
  {
    var step, parts, lands := Seeker(table, data), Parts(items), seq(k, _ => true);
    forall j | 0 <= j < k ensures Walks(step(stops[..k + 1][j]), lands[j], stops[..k + 1][j + 1]) {
      assert PlacedAt(data, stops[j], parts[j], stops[j + 1]) && items[..k][j] == items[j];
      SeekAt(table, data, stops[j], items[j], stops[j + 1]);
    }
    StepThroughStops(step, stops[..k + 1], lands);
    SeekManyIterates(table, data, stops[0], k);
    assert PlacedAt(data, stops[k], parts[k], stops[k + 1]);
  }

  /** Reading the header of an array and then seeking `k` times stands at the encoding of element `k`, for
      every `k`. */
  lemma ElementsVisitedInOrder(table: Table, data: Bytes, pos: nat, items: seq<Value>, k: nat)
    requires Initialized(table) && Valid(Array(items)) && At(data, pos, Write(Array(items)))
    requires k < |items| && AllSmall(items[..k])
    ensures pos < |data| && ReadArraySize(table, data, pos).Some?
    ensures ReadArraySize(table, data, pos).value.0 == |items|
    ensures var here := SeekMany(table, data, ReadArraySize(table, data, pos).value.1, k);
            here.Some? && At(data, here.value, Write(items[k]))
  {
    var stops := PlaceArray(data, pos, items);
    ArraySizeRead(table, data, pos, |items|, stops[0]);
    SeekToChild(table, data, stops, items, k);
  }

  /** Reading the header of a map and then seeking `k` times stands at the encoding of key or value `k`, for
      every `k`. */
  lemma PairsVisitedInOrder(table: Table, data: Bytes, pos: nat, items: seq<Value>, k: nat)
    requires Initialized(table) && Valid(Map(items)) && At(data, pos, Write(Map(items)))
    requires k < |items| && AllSmall(items[..k])
    ensures pos < |data| && ReadMapSize(table, data, pos).Some?
    ensures ReadMapSize(table, data, pos).value.0 == |items| / 2
    ensures var here := SeekMany(table, data, ReadMapSize(table, data, pos).value.1, k);
            here.Some? && At(data, here.value, Write(items[k]))
  {
    var stops := PlaceMap(data, pos, items);
    MapSizeRead(table, data, pos, |items|, stops[0]);
    SeekToChild(table, data, stops, items, k);
  }

  /** `ARRAY_LOOP` starts one byte behind the array's first byte, which is its first element exactly when the array
      has fewer than 16 elements. */
  lemma ArrayLoopStartsAtFirstElementIff(table: Table, data: Bytes, pos: nat, n: nat)
    requires Initialized(table) && IsUint32(n) && At(data, pos, ArrayHeader(n))
    ensures pos < |data| && ReadArraySize(table, data, pos).Some?
    ensures ReadArraySize(table, data, pos).value.1 == pos + 1 <==> n < 0x10
  {
    ArrayHeaderRead(table, data, pos, n);
  }
}
