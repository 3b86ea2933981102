/** The wire formats of protocol.py: JSONProtocol's 4-byte big-endian length framing (the JSON text
    itself is a byte string here) and CustomProtocol's `action|k=v&k=v` text serialisation. Text is
    carried as its UTF-8 bytes: '|', '&' and '=' are ASCII, and no byte of a multi-byte UTF-8 sequence
    is below 0x80, so splitting the bytes at them is splitting the decoded string. */
module TextProtocol {
  import opened Wrappers
  import opened Bytes
  import opened Decimal
  import opened Search

  const PIPE: byte := 0x7C    // '|'
  const AMP: byte := 0x26     // '&'
  const EQUALS: byte := 0x3D  // '='

  const ACTION: seq<byte> := [0x61, 0x63, 0x74, 0x69, 0x6F, 0x6E]                          // "action"
  const MESSAGE_ID: seq<byte> := [0x6D, 0x65, 0x73, 0x73, 0x61, 0x67, 0x65, 0x5F, 0x69, 0x64]  // "message_id"
  const LIMIT: seq<byte> := [0x6C, 0x69, 0x6D, 0x69, 0x74]                                 // "limit"

  // ---------------------------------------------------------------------------------------------
  // Length framing, shared by JSONProtocol and CustomProtocol

  /** `send`'s bytes for an encoded payload: its length as 4 big-endian bytes, then the payload;
      `int.to_bytes(4, ...)` overflows for a payload of 2^32 bytes or more. */
  function Frame(payload: seq<byte>): (r: Result<seq<byte>>)
    ensures r.Err? <==> |payload| >= TWO32
    ensures r.Ok? ==> |r.value| == 4 + |payload| && FromBigEndian(r.value[..4]) == |payload|
    ensures r.Ok? ==> r.value[4..] == payload
  {
    if |payload| >= TWO32 then Err(OverflowError)
    else
      FromU32(|payload|);
      assert (U32(|payload|) + payload)[..4] == U32(|payload|);
      Ok(U32(|payload|) + payload)
  }

  /** `receive`'s two reads: up to 4 header bytes (None when there are none), read as a big-endian
      number however many arrived, then up to that many payload bytes. For JSONProtocol the payload is
      the JSON text handed to `json.loads`. */
  function ReadFrame(stream: seq<byte>): (r: Option<seq<byte>>)
    ensures r.None? <==> stream == []
    ensures r.Some? ==> |r.value| <= FromBigEndian(Slice(stream, 0, 4))
  {
    var header := Slice(stream, 0, 4);
    if header == [] then None
    else Some(Slice(stream, |header|, |header| + FromBigEndian(header)))
  }

  /** Reading from a stream that starts with a frame gives exactly the framed payload back. */
  lemma ReadFramed(payload: seq<byte>, rest: seq<byte>)
    requires |payload| < TWO32
    ensures ReadFrame(Frame(payload).value + rest) == Some(payload)
  {
    var f := Frame(payload).value;
    var s := f + rest;
    assert Slice(s, 0, 4) == f[..4];
    assert s[4..4 + |payload|] == payload;
  }

  // ---------------------------------------------------------------------------------------------
  // Dictionaries

  /** A dictionary value: a string, or an integer (`message_id`, `limit`). */
  datatype Value = Str(s: seq<byte>) | Int(i: int)

  /** A Python dict: its entries in insertion order. */
  type Dict = seq<(seq<byte>, Value)>

  /** `str(v)`, as an f-string writes it. */
  function TextOf(v: Value): seq<byte> {
    match v
    case Str(s) => s
    case Int(i) => Dec(i)
  }

  /** The keys of d. */
  function Keys(d: Dict): set<seq<byte>> {
    if d == [] then {} else {d[0].0} + Keys(d[1..])
  }

  /** `d.get(k)`: the value of the entry with key k. */
  function Find(d: Dict, k: seq<byte>): (r: Option<Value>)
    ensures r.Some? <==> k in Keys(d)
    ensures r.Some? ==> (k, r.value) in d
  {
    if d == [] then None else if d[0].0 == k then Some(d[0].1) else Find(d[1..], k)
  }

  lemma {:induction false} KeysAppend(d: Dict, k: seq<byte>, v: Value)
    ensures Keys(d + [(k, v)]) == Keys(d) + {k}
  {
    if d != [] {
      assert (d + [(k, v)])[1..] == d[1..] + [(k, v)];
      KeysAppend(d[1..], k, v);
    }
  }

  /** No key occurs twice, as in a Python dict. */
  predicate UniqueKeys(d: Dict) {
    d == [] || (d[0].0 !in Keys(d[1..]) && UniqueKeys(d[1..]))
  }

  /** `d[k] = v`: an existing key keeps its place and takes the new value; a new key goes last. */
  function Insert(d: Dict, k: seq<byte>, v: Value): (r: Dict)
    ensures Find(r, k) == Some(v)
    ensures k !in Keys(d) ==> r == d + [(k, v)]
    ensures k in Keys(d) ==> |r| == |d|
  {
    if d == [] then [(k, v)]
    else if d[0].0 == k then
      var r := [(k, v)] + d[1..];
      assert r[0] == (k, v) && r[1..] == d[1..];
      r
    else
      var rest := Insert(d[1..], k, v);
      var r := [d[0]] + rest;
      assert r[0] == d[0] && r[1..] == rest;
      r
  }

  /** `d[k] = v` on a key already present keeps every key in its place and every other key's
      value. */
  lemma {:induction false} InsertInPlace(d: Dict, k: seq<byte>, v: Value)
    requires k in Keys(d)
    ensures var r := Insert(d, k, v);
            && |r| == |d|
            && forall j :: 0 <= j < |d| ==> r[j].0 == d[j].0 && (d[j].0 != k ==> r[j].1 == d[j].1)
  {
    var r := Insert(d, k, v);
    if d[0].0 != k {
      InsertInPlace(d[1..], k, v);
      forall j | 0 <= j < |d|
        ensures r[j].0 == d[j].0 && (d[j].0 != k ==> r[j].1 == d[j].1)
      {
        if j > 0 {
          assert r[j] == Insert(d[1..], k, v)[j - 1] && d[j] == d[1..][j - 1];
        }
      }
    }
  }

  /** `d[k] = v` adds k to the keys and no other. */
  lemma {:induction false} InsertKeys(d: Dict, k: seq<byte>, v: Value)
    ensures Keys(Insert(d, k, v)) == Keys(d) + {k}
  {
    if d != [] {
      var r := Insert(d, k, v);
      if d[0].0 == k {
        assert r[1..] == d[1..];
      } else {
        assert r[1..] == Insert(d[1..], k, v);
        InsertKeys(d[1..], k, v);
      }
    }
  }

  /** `d[k] = v` leaves every other key's value alone. */
  lemma {:induction false} InsertOther(d: Dict, k: seq<byte>, v: Value, k': seq<byte>)
    requires k' != k
    ensures Find(Insert(d, k, v), k') == Find(d, k')
  {
    if d != [] && d[0].0 != k {
      var r := Insert(d, k, v);
      assert r[1..] == Insert(d[1..], k, v);
      InsertOther(d[1..], k, v, k');
    }
  }

  /** `d[k] = v` keeps the keys of a dictionary distinct. */
  lemma {:induction false} InsertUnique(d: Dict, k: seq<byte>, v: Value)
    requires UniqueKeys(d)
    ensures UniqueKeys(Insert(d, k, v))
  {
    if d != [] {
      var r := Insert(d, k, v);
      if d[0].0 == k {
        assert r[1..] == d[1..];
      } else {
        assert r[1..] == Insert(d[1..], k, v);
        InsertUnique(d[1..], k, v);
        InsertKeys(d[1..], k, v);
      }
    }
  }

  // ---------------------------------------------------------------------------------------------
  // CustomProtocol.send

  /** The `action` value `send` writes in front: `data.get("action", "")`. */
  function ActionText(d: Dict): seq<byte> {
    match Find(d, ACTION)
    case Some(v) => TextOf(v)
    case None => []
  }

  /** The entries of d other than "action", in dict order. */
  function Others(d: Dict): (r: Dict)
    ensures Keys(r) == Keys(d) - {ACTION}
    ensures UniqueKeys(d) ==> UniqueKeys(r)
    ensures forall e :: e in r ==> e in d && e.0 != ACTION
  {
    if d == [] then []
    else if d[0].0 == ACTION then Others(d[1..])
    else
      var r := [d[0]] + Others(d[1..]);
      assert r[1..] == Others(d[1..]);
      r
  }

  /** `f"{k}={v}"`. */
  function PairText(e: (seq<byte>, Value)): seq<byte> {
    e.0 + [EQUALS] + TextOf(e.1)
  }

  function PairTexts(e: Dict): seq<seq<byte>> {
    if e == [] then [] else [PairText(e[0])] + PairTexts(e[1..])
  }

  /** The texts of entries without '&' hold none: each is `k=v` for one entry, in order. */
  lemma {:induction false} PairTextsSeparated(e: Dict)
    requires forall x :: x in e ==> AMP !in x.0 && AMP !in TextOf(x.1)
    ensures |PairTexts(e)| == |e|
    ensures forall j :: 0 <= j < |e| ==> AMP !in PairTexts(e)[j] && EQUALS in PairTexts(e)[j]
  {
    if e != [] {
      assert e[0] in e;
      assert forall x :: x in e[1..] ==> x in e;
      PairTextsSeparated(e[1..]);
      var t := PairText(e[0]);
      assert t[|e[0].0|] == EQUALS;
      assert forall j :: 0 < j < |e| ==> PairTexts(e)[j] == PairTexts(e[1..])[j - 1];
    }
  }

  /** The pairs `send` joins: one `k=v` per entry other than "action", in dict order. */
  function Pairs(d: Dict): seq<seq<byte>> {
    PairTexts(Others(d))
  }

  /** `sep.join(items)`. */
  function Join(items: seq<seq<byte>>, sep: byte): seq<byte> {
    if items == [] then [] else if |items| == 1 then items[0] else items[0] + [sep] + Join(items[1..], sep)
  }

  /** The text `send` encodes: the action, '|', then the pairs joined by '&'. */
  function Serialize(d: Dict): seq<byte> {
    ActionText(d) + [PIPE] + Join(Pairs(d), AMP)
  }

  /** `CustomProtocol.send(socket, data)`: the framed serialisation. */
  function Send(d: Dict): (r: Result<seq<byte>>)
    ensures r.Ok? <==> |Serialize(d)| < TWO32
    ensures r.Ok? ==> ReadFrame(r.value) == Some(Serialize(d))
  {
    var r := Frame(Serialize(d));
    if r.Ok? then
      ReadFramed(Serialize(d), []);
      assert r.value + [] == r.value;
      r
    else r
  }

  // ---------------------------------------------------------------------------------------------
  // CustomProtocol.receive

  /** `s.split(sep, 1)`: the whole of s when sep does not occur, else the text before and after its
      first occurrence. */
  function SplitOnce(s: seq<byte>, sep: byte): (r: seq<seq<byte>>)
    ensures 1 <= |r| <= 2
    ensures sep !in r[0]
    ensures |r| == 1 <==> sep !in s
    ensures |r| == 1 ==> r[0] == s
    ensures |r| == 2 ==> s == r[0] + [sep] + r[1]
  {
    match IndexOf(s, sep)
    case None => [s]
    case Some(i) => assert s == s[..i] + [sep] + s[i + 1..]; [s[..i], s[i + 1..]]
  }

  /** `s.split(sep)`. */
  function Split(s: seq<byte>, sep: byte): (r: seq<seq<byte>>)
    ensures |r| >= 1
    ensures forall j :: 0 <= j < |r| ==> sep !in r[j]
    ensures Join(r, sep) == s
    decreases |s|
  {
    match IndexOf(s, sep)
    case None => [s]
    case Some(i) =>
      var tail := Split(s[i + 1..], sep);
      assert s == s[..i] + [sep] + s[i + 1..];
      [s[..i]] + tail
  }

  /** The value `receive` stores under key k: `message_id` and `limit` become integers when their text
      is all digits, everything else stays a string. */
  function Convert(k: seq<byte>, text: seq<byte>): (r: Value)
    ensures r.Int? <==> (k == MESSAGE_ID || k == LIMIT) && IsDigits(text)
    ensures r.Str? ==> r == Str(text)
  {
    if (k == MESSAGE_ID || k == LIMIT) && IsDigits(text) then
      Int(DigitsValue(text))
    else Str(text)
  }

  /** An integer `receive` makes is non-negative and is the number the digits spell. */
  lemma ConvertedInt(k: seq<byte>, text: seq<byte>)
    requires Convert(k, text).Int?
    ensures Convert(k, text).i >= 0 && ParseInt(text) == Some(Convert(k, text).i)
  {
  }

  /** One iteration of `receive`'s item loop: an item without '=' is dropped; otherwise it is split at
      its first '=' into key and value. */
  function ParseItem(d: Dict, item: seq<byte>): Dict {
    var kv := SplitOnce(item, EQUALS);
    if |kv| == 2 then Insert(d, kv[0], Convert(kv[0], kv[1])) else d
  }

  /** The item loop from the given item on. */
  function ParseItems(items: seq<seq<byte>>, d: Dict): Dict
    decreases |items|
  {
    if items == [] then d else ParseItems(items[1..], ParseItem(d, items[0]))
  }

  lemma ParseItemsStep(items: seq<seq<byte>>, j: nat, d: Dict)
    requires j < |items|
    ensures ParseItems(items[j..], d) == ParseItems(items[j + 1..], ParseItem(d, items[j]))
  {
    assert items[j..][1..] == items[j + 1..];
  }

  /** The dictionary `receive` builds from the payload text: the pairs after the first '|' (when that
      part is non-empty), then "action" set to the text before it. */
  function Parse(data: seq<byte>): Dict {
    var parts := SplitOnce(data, PIPE);
    var d := if |parts| > 1 && parts[1] != [] then ParseItems(Split(parts[1], AMP), []) else [];
    Insert(d, ACTION, Str(parts[0]))
  }

  /** What `CustomProtocol.receive(socket)` returns. */
  function Decode(stream: seq<byte>): (r: Option<Dict>)
    ensures r.None? <==> stream == []
  {
    match ReadFrame(stream)
    case None => None
    case Some(data) => Some(Parse(data))
  }

  /** The body of `receive`'s item loop. */
  method ReadItem(d: Dict, item: seq<byte>) returns (r: Dict)
    ensures r == ParseItem(d, item)
  {
    r := d;
    var keyValue := SplitOnce(item, EQUALS);
    if |keyValue| == 2 {
      var key, value := keyValue[0], keyValue[1];
      if key == MESSAGE_ID || key == LIMIT {
        r := Insert(r, key, if IsDigits(value) then Int(DigitsValue(value)) else Str(value));
      } else {
        r := Insert(r, key, Str(value));
      }
    }
  }

  /** The part of `receive` after the two reads: the item loop inserts into the dictionary in
      place, then "action" is set. */
  method ParsePayload(data: seq<byte>) returns (d: Dict)
    ensures d == Parse(data)
  {
    var parts := SplitOnce(data, PIPE);
    var action := parts[0];
    d := [];
    if |parts| > 1 && parts[1] != [] {
      var items := Split(parts[1], AMP);
      for j := 0 to |items|
        invariant ParseItems(items[j..], d) == ParseItems(items, [])
      {
        ParseItemsStep(items, j, d);
        d := ReadItem(d, items[j]);
      }
      assert items[|items|..] == [];
    }
    d := Insert(d, ACTION, Str(action));
  }

  /** `CustomProtocol.receive`. */
  method Receive(stream: seq<byte>) returns (r: Option<Dict>)
    ensures r == Decode(stream)
  {
    var header := Slice(stream, 0, 4);
    if header == [] {
      return None;
    }
    var data := Slice(stream, |header|, |header| + FromBigEndian(header));
    assert ReadFrame(stream) == Some(data);
    var d := ParsePayload(data);
    r := Some(d);
  }

  // ---------------------------------------------------------------------------------------------
  // Properties of receive

  /** The result always holds "action", bound to the text before the first '|'. */
  lemma ParseHasAction(data: seq<byte>)
    ensures Find(Parse(data), ACTION) == Some(Str(SplitOnce(data, PIPE)[0]))
    ensures PIPE !in SplitOnce(data, PIPE)[0]
    ensures PIPE !in data ==> Find(Parse(data), ACTION) == Some(Str(data))
  {
  }

  /** Receiving an empty payload, or one without '|', gives just the action. */
  lemma ParseNoPairs(data: seq<byte>)
    requires PIPE !in data || data[|data| - 1] == PIPE
    ensures PIPE !in data ==> Parse(data) == [(ACTION, Str(data))]
    ensures PIPE in data && PIPE !in data[..|data| - 1] ==> Parse(data) == [(ACTION, Str(data[..|data| - 1]))]
  {
    if PIPE in data && PIPE !in data[..|data| - 1] {
      var parts := SplitOnce(data, PIPE);
      assert |parts[0]| == |data| - 1;
      assert parts[0] == data[..|data| - 1];
    }
  }

  /** The first `c` in `a + [c] + b` is the one after a, when a holds none. */
  lemma SplitOnceAt(a: seq<byte>, c: byte, b: seq<byte>)
    requires c !in a
    ensures SplitOnce(a + [c] + b, c) == [a, b]
  {
    IndexOfAt(a, c, b);
    var s := a + [c] + b;
    assert s[..|a|] == a;
    assert s[|a| + 1..] == b;
  }

  /** Splitting a join of separator-free items gives the items back. */
  lemma {:induction false} SplitJoin(items: seq<seq<byte>>, sep: byte)
    requires |items| >= 1
    requires forall j :: 0 <= j < |items| ==> sep !in items[j]
    ensures Split(Join(items, sep), sep) == items
    decreases |items|
  {
    if |items| > 1 {
      var rest := Join(items[1..], sep);
      SplitOnceAt(items[0], sep, rest);
      SplitJoin(items[1..], sep);
      var s := items[0] + [sep] + rest;
      assert s[|items[0]| + 1..] == rest;
    }
  }

  /** What `receive` makes of each entry `send` wrote: the same key with the value converted. */
  function ConvertAll(e: Dict): Dict {
    if e == [] then [] else [(e[0].0, Convert(e[0].0, TextOf(e[0].1)))] + ConvertAll(e[1..])
  }

  lemma {:induction false} ConvertAllKeys(e: Dict)
    ensures Keys(ConvertAll(e)) == Keys(e)
  {
    if e != [] {
      ConvertAllKeys(e[1..]);
      assert ConvertAll(e)[1..] == ConvertAll(e[1..]);
    }
  }

  /** No key of e holds '='. */
  predicate PlainKeys(e: Dict) {
    e == [] || (EQUALS !in e[0].0 && PlainKeys(e[1..]))
  }

  lemma {:induction false} PlainKeysOf(e: Dict)
    requires forall x :: x in e ==> EQUALS !in x.0
    ensures PlainKeys(e)
  {
    if e != [] {
      assert e[0] in e;
      assert forall x :: x in e[1..] ==> x in e;
      PlainKeysOf(e[1..]);
    }
  }

  /** When e's keys are distinct and missing from acc, so is its first key, and moving its first entry
      over to acc keeps the rest apart. */
  lemma FreshKeysStep(e: Dict, acc: Dict, c: Value)
    requires e != [] && UniqueKeys(e) && PlainKeys(e)
    requires Keys(e) !! Keys(acc)
    ensures EQUALS !in e[0].0 && e[0].0 !in Keys(acc)
    ensures UniqueKeys(e[1..]) && PlainKeys(e[1..])
    ensures Keys(e[1..]) !! Keys(acc + [(e[0].0, c)])
  {
    KeysAppend(acc, e[0].0, c);
  }

  /** One item `send` wrote, parsed into a dictionary that lacks its key, lands at the end. */
  lemma ParsePair(acc: Dict, e: Dict)
    requires e != []
    requires EQUALS !in e[0].0 && e[0].0 !in Keys(acc)
    ensures ParseItems(PairTexts(e), acc) == ParseItems(PairTexts(e[1..]), acc + [(e[0].0, Convert(e[0].0, TextOf(e[0].1)))])
  {
    SplitOnceAt(e[0].0, EQUALS, TextOf(e[0].1));
    var items := PairTexts(e);
    assert items[1..] == PairTexts(e[1..]);
  }

  /** The item loop over the pairs of e, starting from a dictionary none of e's keys is in, appends e's
      entries (converted) in order. */
  lemma {:induction false} ParsePairs(e: Dict, acc: Dict)
    requires UniqueKeys(e) && PlainKeys(e)
    requires Keys(e) !! Keys(acc)
    ensures ParseItems(PairTexts(e), acc) == acc + ConvertAll(e)
    decreases |e|
  {
    if e != [] {
      var k := e[0].0;
      var c := Convert(k, TextOf(e[0].1));
      var acc' := acc + [(k, c)];
      var tail := e[1..];
      FreshKeysStep(e, acc, c);
      ParsePairs(tail, acc');
      ParsePair(acc, e);
      ConvertAllCons(acc, e);
    }
  }

  lemma ConvertAllCons(acc: Dict, e: Dict)
    requires e != []
    ensures acc + [(e[0].0, Convert(e[0].0, TextOf(e[0].1)))] + ConvertAll(e[1..]) == acc + ConvertAll(e)
  {
    assert ConvertAll(e) == [(e[0].0, Convert(e[0].0, TextOf(e[0].1)))] + ConvertAll(e[1..]);
  }

  /** The dictionary `receive` gives back for d: its entries other than "action", converted and in
      order, then "action" bound to the text `send` wrote for it. */
  function Received(d: Dict): Dict {
    ConvertAll(Others(d)) + [(ACTION, Str(ActionText(d)))]
  }

  /** The conditions for `send`'s text to parse back unambiguously: the action holds no '|', and
      every other key holds no '=' or '&' and its value text no '&'. */
  predicate Transmittable(d: Dict) {
    && PIPE !in ActionText(d)
    && forall e :: e in d ==> e.0 == ACTION || (EQUALS !in e.0 && AMP !in e.0 && AMP !in TextOf(e.1))
  }

  /** What `receive` does to the text `send` wrote. */
  lemma ParseSerialized(d: Dict)
    requires UniqueKeys(d) && Transmittable(d)
    ensures Parse(Serialize(d)) == Received(d)
  {
    var o := Others(d);
    var joined := Join(Pairs(d), AMP);
    SplitOnceAt(ActionText(d), PIPE, joined);
    assert Parse(Serialize(d)) == Insert(if joined != [] then ParseItems(Split(joined, AMP), []) else [], ACTION, Str(ActionText(d)));
    ConvertAllKeys(o);
    if o != [] {
      var items := Pairs(d);
      PairTextsSeparated(o);
      assert |joined| > 0 by { assert EQUALS in items[0]; }
      SplitJoin(items, AMP);
      PlainKeysOf(o);
      ParsePairs(o, []);
      assert [] + ConvertAll(o) == ConvertAll(o);
    }
  }

  /** `receive(send(d))` on a stream that starts with what `send` wrote. */
  lemma ReceiveSent(d: Dict, rest: seq<byte>)
    requires Send(d).Ok?
    requires UniqueKeys(d) && Transmittable(d)
    ensures Decode(Send(d).value + rest) == Some(Received(d))
  {
    ReadFramed(Serialize(d), rest);
    ParseSerialized(d);
  }

  /** A value `receive` could itself have produced under key k. */
  predicate Canonical(k: seq<byte>, v: Value) {
    if k == MESSAGE_ID || k == LIMIT then (v.Int? && v.i >= 0) || (v.Str? && !IsDigits(v.s)) else v.Str?
  }

  /** Converting a value `receive` could have produced changes nothing. */
  lemma ConvertCanonical(k: seq<byte>, v: Value)
    requires Canonical(k, v)
    ensures Convert(k, TextOf(v)) == v
  {
    if v.Int? {
      DecCharacters(v.i);
      DigitsRoundTrip(v.i);
    }
  }

  lemma {:induction false} ConvertAllCanonical(e: Dict)
    requires forall x :: x in e ==> Canonical(x.0, x.1)
    ensures ConvertAll(e) == e
  {
    if e != [] {
      assert e[0] in e;
      ConvertCanonical(e[0].0, e[0].1);
      assert forall x :: x in e[1..] ==> x in e;
      ConvertAllCanonical(e[1..]);
      assert e == [e[0]] + e[1..];
    }
  }

  /** With every value already in the form `receive` produces, the round trip returns the
      dictionary itself, with "action" moved to the end. */
  lemma ReceivedCanonical(d: Dict)
    requires forall e :: e in d ==> Canonical(e.0, e.1)
    ensures Received(d) == Others(d) + [(ACTION, Str(ActionText(d)))]
  {
    ConvertAllCanonical(Others(d));
  }
}
