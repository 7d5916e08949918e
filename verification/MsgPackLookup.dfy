/**
 Reading numbers and strings back, and looking a value up in a map by its string key.
 */
module MsgPackLookup {
  import opened Optional
  import opened MsgPack
  import opened MsgPackReaders

  // ----- numbers -----------------------------------------------------------------------------

  /** An unsigned number of `bits` read as a two's complement one. */
  function Signed(n: nat, limit: nat): int {
    if n < limit / 2 then n else n - limit
  }

  function SignedOption(n: Option<nat>, limit: nat): Option<int> {
    match n
    case None => None
    case Some(value) => Some(Signed(value, limit))
  }

  /** `msgPackReadInt`; the reader of INT8 looks at the first byte instead of the second. */
  function ReadInt(table: Table, data: Bytes, pos: nat): Option<int>
    requires pos < |data|
  {
    var format := table[data[pos]];
    if format.dataType != INTEGER then Some(0)
    else if format.min == 0x00 then Some(data[pos] % 0x80)
    else if format.min == 0xCC then Load(data, pos + 1, 1)
    else if format.min == 0xCD then Load(data, pos + 1, 2)
    else if format.min == 0xCE then Load(data, pos + 1, 4)
    else if format.min == 0xE0 then Some(Signed(data[pos], 0x100))
    else if format.min == 0xD0 then Some(Signed(data[pos], 0x100))
    else if format.min == 0xD1 then SignedOption(Load(data, pos + 1, 2), 0x1_0000)
    else if format.min == 0xD2 then SignedOption(Load(data, pos + 1, 4), 0x1_0000_0000)
    else Some(0)
  }

  /** What every integer format reads as, also those that are never written: 8 bits unsigned, 16 and 32 bits unsigned
      and signed in two's complement; INT8 always as its own tag, and the 64-bit formats always as 0. */
  lemma IntegerFormatsRead(table: Table, data: Bytes, pos: nat, size: nat, n: nat)
    requires Initialized(table) && pos < |data| && (size == 1 || size == 2 || size == 4)
    requires Load(data, pos + 1, size) == Some(n)
    ensures data[pos] <= 0x7F ==> ReadInt(table, data, pos) == Some(data[pos])
    ensures data[pos] >= 0xE0 ==> ReadInt(table, data, pos) == Some(data[pos] as int - 0x100)
    ensures (data[pos], size) in {(0xCC, 1), (0xCD, 2), (0xCE, 4)} ==> ReadInt(table, data, pos) == Some(n)
    ensures (data[pos], size) == (0xD1, 2) ==> ReadInt(table, data, pos) == Some(if n < 0x8000 then n else n - 0x1_0000)
    ensures (data[pos], size) == (0xD2, 4) ==>
              ReadInt(table, data, pos) == Some(if n < 0x8000_0000 then n else n - 0x1_0000_0000)
    ensures data[pos] == 0xD0 ==> ReadInt(table, data, pos) == Some(-0x30)
    ensures data[pos] == 0xCF || data[pos] == 0xD3 ==> ReadInt(table, data, pos) == Some(0)
  {
    var first := data[pos];
    if first <= 0x7F {
      RowOf(table, first, 0);
    } else if first >= 0xE0 {
      RowOf(table, first, 35);
    } else if 0xCC <= first <= 0xD3 {
      RowOf(table, first, first - 0xBD);
    }
  }

  /** Anything but an integer reads as 0. */
  lemma OthersReadAsZero(table: Table, data: Bytes, pos: nat)
    requires Initialized(table) && pos < |data|
    requires 0x80 <= data[pos] <= 0xCB || 0xD4 <= data[pos] <= 0xDF
    ensures ReadInt(table, data, pos) == Some(0)
  {
    FormatIndexFromInRange(0, data[pos]);
    var row := FormatIndex(data[pos]);
    assert FormatEntry(row).dataType != INTEGER;
    RowOf(table, data[pos], row);
  }

  /** The number that comes back for an encoded one. */
  function ReadBack(x: int, signed: bool): int {
    if !signed then (if x < 0 then x + 0x1_0000_0000 else x)
    else if x < -0x8000 then x + 0x1_0000_0000
    else if -0x80 <= x < -0x20 then -0x30
    else x
  }

  /** Every encoded integer reads as `ReadBack` says. */
  lemma IntegerReadsAs(table: Table, data: Bytes, pos: nat, x: int, signed: bool)
    requires Initialized(table) && IsInt32(x) && At(data, pos, WriteInteger(x, signed))
    ensures pos < |data| && ReadInt(table, data, pos) == Some(ReadBack(x, signed))
  {
    IntegerRead(table, data, pos, x, signed);
    if x < 0 && !signed {
      Load32(data, pos, 0xCE, x);
    } else if -0x80 <= x < 0x80 {
    } else if 0 <= x < 0x100 {
      Load8(data, pos, 0xCC, x);
    } else if 0 <= x < 0x1_0000 {
      Load16(data, pos, 0xCD, x);
    } else if -0x8000 <= x < 0x8000 {
      Load16(data, pos, 0xD1, x);
    } else {
      Load32(data, pos, 0xCE, x);
    }
  }

  /** Unsigned 32-bit numbers read back unchanged. */
  lemma UnsignedRoundTrip(table: Table, data: Bytes, pos: nat, x: int)
    requires Initialized(table) && IsInt32(x) && At(data, pos, WriteInteger(x, false))
    ensures pos < |data| && ReadInt(table, data, pos) == Some(x % 0x1_0000_0000)
  {
    IntegerReadsAs(table, data, pos, x, false);
  }

  /** A signed number reads back unchanged exactly when it is not written as an INT8 or, being below the
      16-bit range, as a UINT32; the one INT8 that survives equals the INT8 tag. */
  lemma SignedRoundTripIff(table: Table, data: Bytes, pos: nat, x: int)
    requires Initialized(table) && IsInt32(x) && At(data, pos, WriteInteger(x, true))
    ensures pos < |data|
    ensures ReadInt(table, data, pos) == Some(x) <==> x >= -0x20 || x == -0x30 || -0x8000 <= x < -0x80
  {
    IntegerReadsAs(table, data, pos, x, true);
  }

  // ----- strings -----------------------------------------------------------------------------

  /** `msgPackReadStr`. */
  function ReadText(table: Table, data: Bytes, pos: nat): Option<Bytes>
    requires pos < |data|
  {
    var format := table[data[pos]];
    if format.dataType != STRING then None
    else
      match ReadLengthField(data, pos, format.parameter)
      case None => None
      case Some(length) =>
        var start := pos + 1 + format.Size();
        if start + length <= |data| then Some(data[start..start + length]) else None
  }

  lemma TextRoundTrip(table: Table, data: Bytes, pos: nat, bytes: Bytes)
    requires Initialized(table) && IsUint32(|bytes|) && At(data, pos, WriteText(bytes))
    ensures pos < |data| && table[data[pos]].dataType == STRING && ReadText(table, data, pos) == Some(bytes)
  {
    AtPrefix(data, pos, TextHeader(|bytes|), bytes);
    TextHeaderRead(table, data, pos, |bytes|);
  }

  // ----- lookup ------------------------------------------------------------------------------

  /** `Lost` stands for a search that leaves the buffer, follows NULL or does not return. */
  datatype Lookup = Found(pos: nat) | Missing | Lost

  function SeekTwice(table: Table, data: Bytes, pos: nat): Option<nat> {
    SeekMany(table, data, pos, 2)
  }

  /** One turn of a search: it is over, or goes on at another pair. */
  datatype Turn = Over(result: Lookup) | Next(element: nat)

  /** One turn of `msgPackMapGetFromString`.  A key that is no string is skipped with its value, and the pair
      behind it is then read without another look. */
  function TryPair(table: Table, data: Bytes, search: Bytes, element: nat): Turn {
    if element >= |data| then Over(Lost)
    else
      var key := if table[data[element]].dataType == STRING then Some(element) else SeekTwice(table, data, element);
      if key.None? || key.value >= |data| then Over(Lost)
      else
        var text := ReadText(table, data, key.value);
        if text.None? && search != [] then Over(Lost)
        else if text.None? || search <= text.value then
          match Seek(table, data, key.value)
          case None => Over(Lost)
          case Some(value) => Over(Found(value))
        else
          match SeekTwice(table, data, key.value)
          case None => Over(Lost)
          case Some(next) => Next(next)
  }

  /** At most `n` turns from `element` on. */
  function Turns(turn: nat -> Turn, element: nat, n: nat): Lookup
    decreases n
  {
    if n == 0 then Missing
    else
      match turn(element)
      case Over(r) => r
      case Next(next) => Turns(turn, next, n - 1)
  }

  function Turner(table: Table, data: Bytes, search: Bytes): nat -> Turn {
    (element: nat) => TryPair(table, data, search, element)
  }

  /** The search of `msgPackMapGetFromString` through the `n` pairs from `element` on. */
  function Search(table: Table, data: Bytes, search: Bytes, element: nat, n: nat): Lookup {
    Turns(Turner(table, data, search), element, n)
  }

  /** `turn` is one turn of the search. */
  ghost predicate IsTurner(turn: nat -> Turn, table: Table, data: Bytes, search: Bytes) {
    forall e: nat {:trigger TryPair(table, data, search, e)} :: turn(e) == TryPair(table, data, search, e)
  }

  lemma TurnerIs(table: Table, data: Bytes, search: Bytes)
    ensures IsTurner(Turner(table, data, search), table, data, search)
  {
  }

  /** The comparison loop: whether `search`, up to its terminating NUL, agrees with the key. */
  method StartsWith(key: Bytes, search: Bytes) returns (equal: bool)
    ensures equal <==> search <= key
  {
    var i := 0;
    while i < |search|
      invariant i <= |search| && i <= |key| && search[..i] == key[..i]
    {
      if i == |key| || key[i] != search[i] {
        return false;
      }
      i := i + 1;
    }
    return true;
  }

  /** Two calls of `msgPackSeek`. */
  method SeekBoth(table: Table, data: Bytes, pos: nat) returns (r: Option<nat>)
    ensures r == SeekTwice(table, data, pos)
  {
    r := SeekValue(table, data, pos);
    if r.Some? {
      assert SeekMany(table, data, pos, 2) == SeekMany(table, data, r.value, 1);
      r := SeekValue(table, data, r.value);
    }
  }

  /** The body of the loop in `msgPackMapGetFromString`. */
  method ReadPair(table: Table, data: Bytes, search: Bytes, start: nat) returns (turn: Turn)
    ensures turn == TryPair(table, data, search, start)
  {
    if start >= |data| {
      return Over(Lost);
    }
    var element: nat := start;
    if table[data[start]].dataType != STRING {
      var skipped := SeekBoth(table, data, start);
      if skipped.None? || skipped.value >= |data| {
        return Over(Lost);
      }
      element := skipped.value;
    }
    var key := ReadText(table, data, element);
    var equal := search == [];
    if key.Some? {
      equal := StartsWith(key.value, search);
    } else if search != [] {
      return Over(Lost);
    }
    if equal {
      var value := SeekValue(table, data, element);
      return Over(if value.Some? then Found(value.value) else Lost);
    }
    var behind := SeekBoth(table, data, element);
    return if behind.Some? then Next(behind.value) else Over(Lost);
  }

  /** The loop of `msgPackMapGetFromString`. */
  method SearchPairs(table: Table, data: Bytes, search: Bytes, start: nat, pairCount: nat, ghost turns: nat -> Turn)
    returns (r: Lookup)
    requires IsTurner(turns, table, data, search)
    ensures r == Turns(turns, start, pairCount)
  {
    var element: nat, i := start, 0;
    while i < pairCount
      invariant i <= pairCount
      invariant Turns(turns, element, pairCount - i) == Turns(turns, start, pairCount)
    {
      var turn := TakeTurn(table, data, search, element, turns);
      if turn.Over? {
        return turn.result;
      }
      element := turn.element;
      i := i + 1;
    }
    return Missing;
  }

  method TakeTurn(table: Table, data: Bytes, search: Bytes, element: nat, ghost turns: nat -> Turn) returns (turn: Turn)
    requires IsTurner(turns, table, data, search)
    ensures turn == turns(element)
  {
    turn := ReadPair(table, data, search, element);
  }

  method MapGetFromString(table: Table, data: Bytes, pos: nat, search: Bytes) returns (r: Lookup)
    requires pos < |data|
    ensures match ReadMapSize(table, data, pos)
            case None => r == Missing
            case Some(size) => r == Search(table, data, search, size.1, size.0)
  {
    var size := ReadMapSize(table, data, pos);
    if size.None? {
      return Missing;
    }
    TurnerIs(table, data, search);
    r := SearchPairs(table, data, search, size.value.1, size.value.0, Turner(table, data, search));
  }

  // ----- what the lookup finds ---------------------------------------------------------------

  /** Key `k` is the first from `from` on that begins with `search`. */
  predicate FirstMatch(keys: seq<Bytes>, search: Bytes, from: nat, k: nat) {
    && from <= k < |keys| && search <= keys[k]
    && forall j | from <= j < k :: !(search <= keys[j])
  }

  /** Value `j`, over which the seek does not land, stands before any key from `from` on that begins with `search`. */
  predicate Blocks(keys: seq<Bytes>, lands: seq<bool>, search: Bytes, from: nat, j: nat)
    requires |lands| == |keys|
  {
    from <= j < |keys| && !lands[j] && forall i | from <= i <= j :: !(search <= keys[i])
  }

  /** The result of a search for `search` from pair `from` on, when the values stand at `values` and `lands` says
      which of them a seek gets over. */
  ghost predicate FindsFirst(r: Lookup, keys: seq<Bytes>, values: seq<nat>, lands: seq<bool>, search: Bytes, from: nat)
    requires |values| == |lands| == |keys|
  {
    match r
    case Found(p) =>
      exists k: nat | k < |keys| ::
        FirstMatch(keys, search, from, k) && p == values[k] && forall j | from <= j < k :: lands[j]
    case Missing => forall j | from <= j < |keys| :: !(search <= keys[j]) && lands[j]
    case Lost => exists j: nat | j < |keys| :: Blocks(keys, lands, search, from, j)
  }

  /** The turn ends the search at `value` on a hit; otherwise it goes on at `next`, or not at all. */
  predicate TurnIs(turn: Turn, hit: bool, lands: bool, value: nat, next: nat) {
    turn == if hit then Over(Found(value)) else if lands then Next(next) else Over(Lost)
  }

  /** Turns that behave like a linear search through `keys` find the first match. */
  lemma {:induction false} TurnsFindFirst(turn: nat -> Turn, stops: seq<nat>, values: seq<nat>, lands: seq<bool>,
                                          keys: seq<Bytes>, search: Bytes, from: nat)
    requires |stops| == |keys| + 1 && |values| == |lands| == |keys| && from <= |keys|
    requires forall k | 0 <= k < |keys| ::
               TurnIs(turn(stops[k]), search <= keys[k], lands[k], values[k], stops[k + 1])
    ensures FindsFirst(Turns(turn, stops[from], |keys| - from), keys, values, lands, search, from)
    decreases |keys| - from
  {
    if from < |keys| {
      assert TurnIs(turn(stops[from]), search <= keys[from], lands[from], values[from], stops[from + 1]);
      if search <= keys[from] {
        assert FirstMatch(keys, search, from, from);
      } else if !lands[from] {
        assert Blocks(keys, lands, search, from, from);
      } else {
        TurnsFindFirst(turn, stops, values, lands, keys, search, from + 1);
        FindsFirstBefore(Turns(turn, stops[from + 1], |keys| - (from + 1)), keys, values, lands, search, from);
      }
    }
  }

  /** A pair that is passed does not change what the search finds. */
  lemma FindsFirstBefore(r: Lookup, keys: seq<Bytes>, values: seq<nat>, lands: seq<bool>, search: Bytes, from: nat)
    requires |values| == |lands| == |keys| && from < |keys| && !(search <= keys[from]) && lands[from]
    requires FindsFirst(r, keys, values, lands, search, from + 1)
    ensures FindsFirst(r, keys, values, lands, search, from)
  {
    match r
    case Found(p) =>
      var k: nat :| k < |keys| && FirstMatch(keys, search, from + 1, k) && p == values[k]
                 && forall j | from + 1 <= j < k :: lands[j];
      assert FirstMatch(keys, search, from, k);
    case Missing =>
    case Lost =>
      var j: nat :| j < |keys| && Blocks(keys, lands, search, from + 1, j);
      assert Blocks(keys, lands, search, from, j);
  }

  lemma SeekTwoSteps(table: Table, data: Bytes, a: nat, b: nat, lands: bool, c: nat)
    requires Seek(table, data, a) == Some(b) && Walks(Seek(table, data, b), lands, c)
    ensures Walks(SeekTwice(table, data, a), lands, c)
  {
    assert SeekMany(table, data, a, 2) == SeekMany(table, data, b, 1);
    if lands {
      assert SeekMany(table, data, c, 0) == Some(c);
    }
  }

  /** One turn of the search, given what it reads. */
  lemma PairTurn(table: Table, data: Bytes, search: Bytes, here: nat, value: nat, lands: bool, next: nat, key: Bytes)
    requires here < |data| && table[data[here]].dataType == STRING && ReadText(table, data, here) == Some(key)
    requires Seek(table, data, here) == Some(value) && Walks(SeekTwice(table, data, here), lands, next)
    ensures TurnIs(TryPair(table, data, search, here), search <= key, lands, value, next)
  {
  }

  /** One turn of the search at an encoded key that stands at `here`, with its value at `value` and the next pair at
      `next`. */
  lemma PlacedTurn(table: Table, data: Bytes, search: Bytes, key: Bytes, v: Value, here: nat, value: nat, next: nat)
    requires Initialized(table) && Valid(Text(key)) && Valid(v)
    requires PlacedAt(data, here, Write(Text(key)), value) && PlacedAt(data, value, Write(v), next)
    ensures TurnIs(TryPair(table, data, search, here), search <= key, Small(v), value, next)
  {
    SeekAt(table, data, here, Text(key), value);
    SeekAt(table, data, value, v, next);
    SeekTwoSteps(table, data, here, value, Small(v), next);
    TextRoundTrip(table, data, here, key);
    PairTurn(table, data, search, here, value, Small(v), next, key);
  }

  /** Where the values of consecutive pairs stand, if keys and values stand between `stops`. */
  function ValueStops(stops: seq<nat>): (values: seq<nat>)
    requires |stops| % 2 == 1
    ensures |values| == |stops| / 2 && forall k | 0 <= k < |values| :: values[k] == stops[2 * k + 1]
  {
    seq(|stops| / 2, k requires 0 <= k < |stops| / 2 => stops[2 * k + 1])
  }

  /** Where consecutive pairs begin, and where the last one ends. */
  function PairStops(stops: seq<nat>): (pairs: seq<nat>)
    requires |stops| % 2 == 1
    ensures |pairs| == |stops| / 2 + 1 && pairs[0] == stops[0]
    ensures forall k | 0 <= k < |pairs| :: pairs[k] == stops[2 * k]
  {
    seq(|stops| / 2 + 1, k requires 0 <= k <= |stops| / 2 => stops[2 * k])
  }

  /** Which values of consecutive pairs a seek gets over. */
  function SmallValues(items: seq<Value>): (lands: seq<bool>)
    requires |items| % 2 == 0
    ensures |lands| == |items| / 2 && forall k | 0 <= k < |lands| :: lands[k] == Small(items[2 * k + 1])
  {
    seq(|items| / 2, k requires 0 <= k < |items| / 2 => Small(items[2 * k + 1]))
  }

  lemma SearchStops(table: Table, data: Bytes, search: Bytes, stops: seq<nat>, values: seq<nat>, lands: seq<bool>,
                    keys: seq<Bytes>)
    requires |stops| == |keys| + 1 && |values| == |lands| == |keys|
    requires forall k | 0 <= k < |keys| ::
               TurnIs(TryPair(table, data, search, stops[k]), search <= keys[k], lands[k], values[k], stops[k + 1])
    ensures FindsFirst(Search(table, data, search, stops[0], |keys|), keys, values, lands, search, 0)
  {
    TurnerIs(table, data, search);
    TurnsFindFirst(Turner(table, data, search), stops, values, lands, keys, search, 0);
  }

  /** The items are pairs whose keys are the strings `keys`. */
  predicate HasKeys(items: seq<Value>, keys: seq<Bytes>) {
    |items| == 2 * |keys| && forall k | 0 <= k < |keys| :: items[2 * k] == Text(keys[k])
  }

  /** On every encoded map with string keys, the lookup finds the value of the first pair whose key begins with the
      search string if a seek gets over all values before it, misses if no key does and a seek gets over all values,
      and otherwise does not return. */
  lemma LookupFindsFirstPrefix(table: Table, data: Bytes, pos: nat, items: seq<Value>, keys: seq<Bytes>, search: Bytes)
    returns (stops: seq<nat>)
    requires Initialized(table) && Valid(Map(items)) && HasKeys(items, keys)
    requires At(data, pos, Write(Map(items)))
    ensures |stops| == 2 * |keys| + 1 && Placed(data, stops, Parts(items))
    ensures pos < |data| && ReadMapSize(table, data, pos) == Some((|keys|, stops[0]))
    ensures FindsFirst(Search(table, data, search, stops[0], |keys|), keys, ValueStops(stops), SmallValues(items),
                       search, 0)
  {
    stops := MapAt(table, data, pos, items, keys);
    SearchItems(table, data, search, stops, items, keys);
  }

  lemma MapAt(table: Table, data: Bytes, pos: nat, items: seq<Value>, keys: seq<Bytes>) returns (stops: seq<nat>)
    requires Initialized(table) && Valid(Map(items)) && HasKeys(items, keys) && At(data, pos, Write(Map(items)))
    ensures |stops| == 2 * |keys| + 1 && Placed(data, stops, Parts(items)) && AllValid(items)
    ensures pos < |data| && ReadMapSize(table, data, pos) == Some((|keys|, stops[0]))
  {
    stops := PlaceMap(data, pos, items);
    MapSizeRead(table, data, pos, |items|, stops[0]);
  }

  lemma SearchItems(table: Table, data: Bytes, search: Bytes, stops: seq<nat>, items: seq<Value>, keys: seq<Bytes>)
    requires |stops| == 2 * |keys| + 1
    requires Initialized(table) && AllValid(items) && HasKeys(items, keys)
    requires Placed(data, stops, Parts(items))
    ensures FindsFirst(Search(table, data, search, stops[0], |keys|), keys, ValueStops(stops), SmallValues(items),
                       search, 0)
  {
    var parts, pairs, values, lands := Parts(items), PairStops(stops), ValueStops(stops), SmallValues(items);
    forall k | 0 <= k < |keys|
      ensures TurnIs(TryPair(table, data, search, pairs[k]), search <= keys[k], lands[k], values[k], pairs[k + 1])
    {
      assert PlacedAt(data, stops[2 * k], parts[2 * k], stops[2 * k + 1]);
      assert PlacedAt(data, stops[2 * k + 1], parts[2 * k + 1], stops[2 * k + 2]);
      assert items[2 * k] == Text(keys[k]) && Valid(items[2 * k]);
      PlacedTurn(table, data, search, keys[k], items[2 * k + 1], pairs[k], values[k], pairs[k + 1]);
    }
    SearchStops(table, data, search, pairs, values, lands, keys);
  }

  // ----- when the lookup is exact ------------------------------------------------------------

  /** The lookup found the first pair with exactly the searched key, or missed because there is none. */
  ghost predicate IsExact(r: Lookup, keys: seq<Bytes>, values: seq<nat>, search: Bytes)
    requires |values| == |keys|
  {
    match r
    case Found(p) => exists k: nat | k < |keys| :: keys[k] == search && search !in keys[..k] && p == values[k]
    case Missing => search !in keys
    case Lost => false
  }

  /** A longer key that begins with `search` stands before any key equal to it. */
  ghost predicate Shadowed(keys: seq<Bytes>, search: Bytes) {
    exists j: nat | j < |keys| :: search < keys[j] && search !in keys[..j]
  }

  /** A value over which a seek does not land stands before any key that begins with `search`. */
  ghost predicate Blocked(keys: seq<Bytes>, lands: seq<bool>, search: Bytes)
    requires |lands| == |keys|
  {
    exists j: nat | j < |keys| :: Blocks(keys, lands, search, 0, j)
  }

  lemma EncodingNotEmpty(v: Value)
    requires Valid(v)
    ensures Write(v) != []
  {
    match v
    case Integer(x, signed) => assert |WriteInteger(x, signed)| > 0;
    case Text(bytes) => assert |WriteText(bytes)| > 0;
    case Array(items) => assert |ArrayHeader(|items|)| > 0;
    case Map(items) => assert |MapHeader(|items|)| > 0;
  }

  lemma {:induction false} StopsGrow(data: Bytes, stops: seq<nat>, parts: seq<Bytes>, i: nat, j: nat)
    requires Placed(data, stops, parts) && i < j < |stops| && forall k | 0 <= k < |parts| :: parts[k] != []
    ensures stops[i] < stops[j]
    decreases j
  {
    assert PlacedAt(data, stops[j - 1], parts[j - 1], stops[j]);
    if i < j - 1 {
      StopsGrow(data, stops, parts, i, j - 1);
    }
  }

  predicate Distinct(values: seq<nat>) {
    forall i, j | 0 <= i < j < |values| :: values[i] != values[j]
  }

  lemma ValuesApart(data: Bytes, stops: seq<nat>, parts: seq<Bytes>)
    requires Placed(data, stops, parts) && |parts| % 2 == 0 && forall k | 0 <= k < |parts| :: parts[k] != []
    ensures Distinct(ValueStops(stops))
  {
    forall i, j | 0 <= i < j < |ValueStops(stops)| ensures ValueStops(stops)[i] != ValueStops(stops)[j] {
      StopsGrow(data, stops, parts, 2 * i + 1, 2 * j + 1);
    }
  }

  lemma PartsNotEmpty(items: seq<Value>)
    requires AllValid(items)
    ensures forall k | 0 <= k < |items| :: Parts(items)[k] != []
  {
    forall k | 0 <= k < |items| ensures Parts(items)[k] != [] {
      EncodingNotEmpty(items[k]);
    }
  }

  /** Finding the first key with the right beginning is exact if and only if the searched key is neither shadowed nor
      blocked. */
  lemma FirstIsExactIff(r: Lookup, keys: seq<Bytes>, values: seq<nat>, lands: seq<bool>, search: Bytes)
    requires |values| == |lands| == |keys| && FindsFirst(r, keys, values, lands, search, 0) && Distinct(values)
    ensures r == Lost <==> Blocked(keys, lands, search)
    ensures IsExact(r, keys, values, search) <==> !Shadowed(keys, search) && !Blocked(keys, lands, search)
  {
    match r
    case Found(p) =>
      var k: nat :| k < |keys| && FirstMatch(keys, search, 0, k) && p == values[k]
                 && forall j | 0 <= j < k :: lands[j];
      assert search !in keys[..k];
      forall j: nat | j < |keys| ensures !Blocks(keys, lands, search, 0, j) {
      }
      if keys[k] == search {
        forall j: nat | j < |keys| && search < keys[j] ensures search in keys[..j] {
          assert keys[..j][k] == search;
        }
      } else {
        assert search < keys[k];
      }
    case Missing =>
    case Lost =>
  }

  /** On every encoded map with string keys, the lookup does not return if and only if it is blocked, and yields the
      value of the first pair with exactly the searched key, or misses if there is none, if and only if that key is
      neither shadowed nor blocked. */
  lemma LookupExactIff(table: Table, data: Bytes, pos: nat, items: seq<Value>, keys: seq<Bytes>, search: Bytes)
    returns (stops: seq<nat>)
    requires Initialized(table) && Valid(Map(items)) && HasKeys(items, keys)
    requires At(data, pos, Write(Map(items)))
    ensures |stops| == 2 * |keys| + 1 && Placed(data, stops, Parts(items))
    ensures pos < |data| && ReadMapSize(table, data, pos) == Some((|keys|, stops[0]))
    ensures Search(table, data, search, stops[0], |keys|) == Lost <==> Blocked(keys, SmallValues(items), search)
    ensures IsExact(Search(table, data, search, stops[0], |keys|), keys, ValueStops(stops), search)
       <==> !Shadowed(keys, search) && !Blocked(keys, SmallValues(items), search)
  {
    stops := LookupFindsFirstPrefix(table, data, pos, items, keys, search);
    PartsNotEmpty(items);
    PlacedFirstIsExactIff(data, stops, Parts(items), keys, SmallValues(items), search,
                          Search(table, data, search, stops[0], |keys|));
  }

  lemma PlacedFirstIsExactIff(data: Bytes, stops: seq<nat>, parts: seq<Bytes>, keys: seq<Bytes>, lands: seq<bool>,
                              search: Bytes, r: Lookup)
    requires Placed(data, stops, parts) && |parts| == 2 * |keys| && forall k | 0 <= k < |parts| :: parts[k] != []
    requires |lands| == |keys| && FindsFirst(r, keys, ValueStops(stops), lands, search, 0)
    ensures r == Lost <==> Blocked(keys, lands, search)
    ensures IsExact(r, keys, ValueStops(stops), search) <==> !Shadowed(keys, search) && !Blocked(keys, lands, search)
  {
    ValuesApart(data, stops, parts);
    FirstIsExactIff(r, keys, ValueStops(stops), lands, search);
  }

  /** In every map from "b" to an array of 256 or more elements and from "a" to anything, the lookup of "a" never
      returns. */
  lemma BlockedLookup(table: Table, data: Bytes, items: seq<Value>) returns (first: nat)
    requires Initialized(table) && Valid(Map(items)) && HasKeys(items, [[98], [97]])
    requires items[1].Array? && |items[1].items| >= 256
    requires At(data, 0, Write(Map(items)))
    ensures data != [] && ReadMapSize(table, data, 0) == Some((2, first))
    ensures Search(table, data, [97], first, 2) == Lost
  {
    var keys: seq<Bytes>, search: Bytes := [[98], [97]], [97];
    assert !(search <= keys[0]) by {
      assert search[0] != keys[0][0];
    }
    FirstValueBlocks(items, keys, search);
    first := LostIfBlocked(table, data, items, keys, search, 2);
  }

  lemma FirstValueBlocks(items: seq<Value>, keys: seq<Bytes>, search: Bytes)
    requires HasKeys(items, keys) && |keys| > 0 && !Small(items[1]) && !(search <= keys[0])
    ensures Blocked(keys, SmallValues(items), search)
  {
    assert Blocks(keys, SmallValues(items), search, 0, 0);
  }

  lemma LostIfBlocked(table: Table, data: Bytes, items: seq<Value>, keys: seq<Bytes>, search: Bytes, n: nat)
    returns (first: nat)
    requires Initialized(table) && Valid(Map(items)) && HasKeys(items, keys) && At(data, 0, Write(Map(items)))
    requires Blocked(keys, SmallValues(items), search) && n == |keys|
    ensures data != [] && ReadMapSize(table, data, 0) == Some((n, first))
    ensures Search(table, data, search, first, n) == Lost
  {
    var stops := LookupExactIff(table, data, 0, items, keys, search);
    first := stops[0];
  }

  /** The map from "ab" to 1 and from "a" to 2. */
  const SHADOWED_ITEMS := [Text([97, 98]), Integer(1, false), Text([97]), Integer(2, false)]

  const SHADOWED_MAP: Bytes := [0x82, 0xA2, 97, 98, 1, 0xA1, 97, 2]

  lemma FlattenFour(a: Bytes, b: Bytes, c: Bytes, d: Bytes)
    ensures Flatten([a, b, c, d]) == a + b + c + d
  {
    assert [a, b, c, d][..3] == [a, b, c] && [a, b, c][..2] == [a, b] && [a, b][..1] == [a] && [a][..0] == [];
    assert Flatten([a]) == a && Flatten([a, b]) == a + b && Flatten([a, b, c]) == a + b + c;
  }

  lemma ShadowedEncoding()
    ensures Write(Map(SHADOWED_ITEMS)) == SHADOWED_MAP
    ensures Write(SHADOWED_ITEMS[0]) == [0xA2, 97, 98] && Write(SHADOWED_ITEMS[1]) == [1]
  {
    var a, b := Write(SHADOWED_ITEMS[0]), Write(SHADOWED_ITEMS[1]);
    var c, d := Write(SHADOWED_ITEMS[2]), Write(SHADOWED_ITEMS[3]);
    assert a == [0xA2, 97, 98] && b == [1] && c == [0xA1, 97] && d == [2];
    assert Parts(SHADOWED_ITEMS) == [a, b, c, d];
    FlattenFour(a, b, c, d);
  }

  lemma ShadowedReads(table: Table, data: Bytes)
    requires Initialized(table) && data == SHADOWED_MAP
    ensures ReadMapSize(table, data, 0) == Some((2, 1)) && ReadInt(table, data, 4) == Some(1)
  {
    assert At(data, 0, MapHeader(4));
    MapHeaderRead(table, data, 0, 4);
    assert At(data, 4, WriteInteger(1, false));
    UnsignedRoundTrip(table, data, 4, 1);
  }

  lemma ShadowedSearch(table: Table, data: Bytes, items: seq<Value>, keys: seq<Bytes>)
    requires Initialized(table) && Valid(Map(items)) && HasKeys(items, keys)
    requires At(data, 0, Write(Map(items))) && |keys| == 2 && [97] <= keys[0] && |Write(items[0])| == 3
    requires data != [] && ReadMapSize(table, data, 0) == Some((2, 1))
    ensures Search(table, data, [97], 1, 2) == Found(4)
  {
    FirstKeyWins(table, data, items, keys, [97]);
  }

  /** Searched for "a", this map yields the value 1 at position 4, not the value 2 at position 7. */
  lemma ShadowedLookup(table: Table, data: Bytes)
    requires Initialized(table) && data == SHADOWED_MAP
    ensures data == Write(Map(SHADOWED_ITEMS))
    ensures ReadMapSize(table, data, 0) == Some((2, 1))
    ensures Search(table, data, [97], 1, 2) == Found(4) && ReadInt(table, data, 4) == Some(1)
  {
    var items := SHADOWED_ITEMS;
    ShadowedReads(table, data);
    ShadowedEncoding();
    ShadowedItems();
    assert |Write(items[0])| == 3;
    assert At(data, 0, Write(Map(items)));
    ShadowedSearch(table, data, items, [[97, 98], [97]]);
  }

  /** A first key that begins with the search string always wins. */
  lemma FirstKeyWins(table: Table, data: Bytes, items: seq<Value>, keys: seq<Bytes>, search: Bytes)
    requires Initialized(table) && Valid(Map(items)) && HasKeys(items, keys)
    requires At(data, 0, Write(Map(items))) && |keys| > 0 && search <= keys[0]
    ensures data != [] && ReadMapSize(table, data, 0).Some?
    ensures var size := ReadMapSize(table, data, 0).value;
            && size.0 == |keys|
            && Search(table, data, search, size.1, size.0) == Found(size.1 + |Write(items[0])|)
  {
    var stops := MapAt(table, data, 0, items, keys);
    FirstPlacedKeyWins(table, data, search, stops, items, keys);
  }

  lemma FirstPlacedKeyWins(table: Table, data: Bytes, search: Bytes, stops: seq<nat>, items: seq<Value>,
                           keys: seq<Bytes>)
    requires |stops| == 2 * |keys| + 1 && |keys| > 0 && search <= keys[0]
    requires Initialized(table) && AllValid(items) && HasKeys(items, keys)
    requires Placed(data, stops, Parts(items))
    ensures Search(table, data, search, stops[0], |keys|) == Found(stops[0] + |Write(items[0])|)
  {
    SearchItems(table, data, search, stops, items, keys);
    FirstPlacedFound(Search(table, data, search, stops[0], |keys|), data, stops, items, keys, search);
  }

  lemma FirstPlacedFound(r: Lookup, data: Bytes, stops: seq<nat>, items: seq<Value>, keys: seq<Bytes>, search: Bytes)
    requires |stops| == 2 * |keys| + 1 && |keys| > 0 && search <= keys[0] && HasKeys(items, keys)
    requires Placed(data, stops, Parts(items))
    requires FindsFirst(r, keys, ValueStops(stops), SmallValues(items), search, 0)
    ensures r == Found(stops[0] + |Write(items[0])|)
  {
    FirstStop(data, stops, items);
    FirstKeyMatches(r, keys, ValueStops(stops), SmallValues(items), search);
  }

  lemma FirstStop(data: Bytes, stops: seq<nat>, items: seq<Value>)
    requires items != [] && Placed(data, stops, Parts(items))
    ensures stops[1] == stops[0] + |Write(items[0])|
  {
    assert PlacedAt(data, stops[0], Parts(items)[0], stops[1]);
  }

  lemma ShadowedItems()
    ensures Valid(Map(SHADOWED_ITEMS)) && HasKeys(SHADOWED_ITEMS, [[97, 98], [97]])
  {
    assert forall v <- SHADOWED_ITEMS :: Valid(v);
  }

  lemma FirstKeyMatches(r: Lookup, keys: seq<Bytes>, values: seq<nat>, lands: seq<bool>, search: Bytes)
    requires |values| == |lands| == |keys| > 0 && FindsFirst(r, keys, values, lands, search, 0) && search <= keys[0]
    ensures r == Found(values[0])
  {
    forall j: nat | j < |keys| ensures !Blocks(keys, lands, search, 0, j) {
    }
  }
}
