/** The binary wire protocol of HW1/protocol.py (class CustomProtocol): length-prefixed string fields,
    frames of an action byte, a field-count byte and the fields behind a 4-byte big-endian length.
    Text is carried as its UTF-8 bytes; the socket is the byte stream the peer wrote. */
module BinaryProtocol {
  import opened Wrappers
  import opened Bytes

  /** The names of the action map; `Unknown` is the default of `action_map.get`. */
  datatype Action = Login | ListAccounts | SendMessage | ReadMessages | DeleteMessage | DeleteAccount
                  | Response | Unknown

  function ActionOf(code: byte): (a: Action)
    ensures a == Unknown <==> !(1 <= code <= 7)
  {
    match code
    case 1 => Login
    case 2 => ListAccounts
    case 3 => SendMessage
    case 4 => ReadMessages
    case 5 => DeleteMessage
    case 6 => DeleteAccount
    case 7 => Response
    case _ => Unknown
  }

  /** The keys `receive` writes into its result dictionary. */
  datatype Key = ActionKey | Username | Password | PageNum | Recipient | MessageText | Limit | MessageId
               | Status

  /** The values it stores: the action name, a decoded string, or an unpacked number. */
  datatype Field = Name(action: Action) | Text(text: seq<byte>) | Number(n: nat)

  type Dict = map<Key, Field>

  // ---------------------------------------------------------------------------------------------
  // A single length-prefixed field

  /** `encode_length_prefixed_field`: a short field is its length byte and its bytes; a field of 255
      bytes or more is 0x00, its length as 4 big-endian bytes, and its bytes. */
  function EncodeField(v: seq<byte>): (r: Result<seq<byte>>)
    ensures r.Err? <==> |v| >= TWO32
    ensures r.Err? ==> r.error == StructError
    ensures r.Ok? ==> |r.value| == (if |v| < 255 then 1 else 5) + |v|
    ensures r.Ok? ==> r.value[|r.value| - |v|..] == v
    ensures r.Ok? && |v| < 255 ==> r.value[0] == |v|
    ensures r.Ok? && |v| >= 255 ==> r.value[0] == 0 && FromBigEndian(r.value[1..5]) == |v|
  {
    if |v| < 255 then Ok([|v|] + v)
    else if |v| < TWO32 then
      FromU32(|v|);
      assert ([0] + U32(|v|) + v)[1..5] == U32(|v|);
      Ok([0] + U32(|v|) + v)
    else Err(StructError)
  }

  /** `_extract_field(data, offset)`: the field's value and the size the code reports for it.
      A first byte of 0 is always read as the long-form marker; the reported size is 1 + length
      for a length under 255 and 5 + length otherwise, whichever form was read; the value slice is
      clamped to the data, as Python slicing is. */
  function ExtractField(data: seq<byte>, offset: nat): (r: Result<(seq<byte>, nat)>)
    ensures r.Err? <==> offset >= |data| || (data[offset] == 0 && offset + 5 > |data|)
    ensures r.Ok? ==> |r.value.0| <= r.value.1
  {
    if offset >= |data| then Err(StructError)
    else
      var short: nat := data[offset];
      if short == 0 && offset + 5 > |data| then Err(StructError)
      else
        var length: nat := if short == 0 then FromBigEndian(data[offset + 1..offset + 5]) else short;
        var start := if short == 0 then offset + 5 else offset + 1;
        Ok((Slice(data, start, start + length), if length < 255 then 1 + length else 5 + length))
  }

  /** `decode_length_prefixed_field(socket)`: the value read from the stream and what is left after it;
      None when the stream is already exhausted. */
  function DecodeField(stream: seq<byte>): (r: Result<Option<(seq<byte>, seq<byte>)>>)
    ensures r == Ok(None) <==> stream == []
    ensures r.Err? <==> stream != [] && stream[0] == 0 && |stream| < 5
    ensures r.Ok? && r.value.Some? ==>
              r.value.value.0 + r.value.value.1 == stream[if stream[0] == 0 then 5 else 1..]
  {
    if stream == [] then Ok(None)
    else if stream[0] != 0 then
      var rest := stream[1..];
      var n: nat := stream[0];
      var m := if n < |rest| then n else |rest|;
      assert rest[..m] + rest[m..] == rest;
      Ok(Some((rest[..m], rest[m..])))
    else if |stream| < 5 then Err(StructError)
    else
      var rest := stream[5..];
      var n := FromBigEndian(stream[1..5]);
      var m := if n < |rest| then n else |rest|;
      assert rest[..m] + rest[m..] == rest;
      Ok(Some((rest[..m], rest[m..])))
  }

  /** A non-empty value written with EncodeField at some offset of a buffer is extracted back, and the
      reported size is exactly the size of its encoding. */
  lemma ExtractEncoded(data: seq<byte>, offset: nat, v: seq<byte>, rest: seq<byte>)
    requires 0 < |v| < TWO32 && offset <= |data|
    requires data[offset..] == EncodeField(v).value + rest
    ensures ExtractField(data, offset) == Ok((v, |EncodeField(v).value|))
  {
    var e := EncodeField(v).value;
    assert data[offset] == e[0];
    if |v| < 255 {
      assert data[offset + 1..offset + 1 + |v|] == v by {
        assert data[offset..][1..1 + |v|] == v;
      }
    } else {
      assert data[offset + 1..offset + 5] == e[1..5] by {
        assert data[offset..][1..5] == e[1..5];
      }
      assert data[offset + 5..offset + 5 + |v|] == v by {
        assert data[offset..][5..5 + |v|] == v;
      }
    }
  }

  /** The empty string is written as the single byte 0x00, which the reader takes for the long-form
      marker: with fewer than four bytes after it extraction fails, and otherwise the next four bytes
      are read as a length. */
  lemma EmptyFieldMisread(prefix: seq<byte>, rest: seq<byte>)
    ensures EncodeField([]) == Ok([0])
    ensures |rest| < 4 ==> ExtractField(prefix + [0] + rest, |prefix|).Err?
    ensures |rest| >= 4 ==>
      var n := FromBigEndian(rest[..4]);
      ExtractField(prefix + [0] + rest, |prefix|) == Ok((Slice(rest, 4, 4 + n), if n < 255 then 1 + n else 5 + n))
  {
    var empty: seq<byte> := [];
    assert [|empty|] + empty == [0];
    var data := prefix + [0] + rest;
    var k := |prefix|;
    assert data[k] == 0;
    if |rest| >= 4 {
      assert data == (prefix + [0]) + rest;
      assert data[k + 1..k + 5] == rest[..4];
      var n := FromBigEndian(rest[..4]);
      SliceAfter(prefix + [0], rest, 4, 4 + n);
      assert ExtractField(data, k) == Ok((Slice(data, k + 5, k + 5 + n), if n < 255 then 1 + n else 5 + n));
    }
  }

  /** Reading a non-empty field from a stream that starts with its encoding gives the value and leaves
      exactly the bytes after it. */
  lemma DecodeEncoded(v: seq<byte>, rest: seq<byte>)
    requires 0 < |v| < TWO32
    ensures DecodeField(EncodeField(v).value + rest) == Ok(Some((v, rest)))
  {
    var s := EncodeField(v).value + rest;
    if |v| < 255 {
      assert s[1..] == v + rest;
      assert (v + rest)[..|v|] == v && (v + rest)[|v|..] == rest;
    } else {
      assert s[1..5] == EncodeField(v).value[1..5];
      assert s[5..] == v + rest;
      assert (v + rest)[..|v|] == v && (v + rest)[|v|..] == rest;
    }
  }

  // ---------------------------------------------------------------------------------------------
  // Sending a frame

  /** The calls `send(socket, action_type, **kwargs)` is made with: each action with the keyword
      arguments its branch reads. */
  datatype Request =
    | LoginRequest(username: seq<byte>, password: seq<byte>)
    | ListAccountsRequest(pageNum: int)
    | SendMessageRequest(recipient: seq<byte>, message: seq<byte>)
    | ReadMessagesRequest(limit: int)
    | DeleteMessageRequest(recipient: seq<byte>, messageId: int)
    | DeleteAccountRequest(password: seq<byte>)
      /** Action 7: `str(value)` of every keyword argument, in argument order. */
    | ResponseRequest(values: seq<seq<byte>>)
      /** Any other action_type, called without keyword arguments. */
    | OtherRequest(code: int)

  function Code(req: Request): int {
    match req
    case LoginRequest(_, _) => 1
    case ListAccountsRequest(_) => 2
    case SendMessageRequest(_, _) => 3
    case ReadMessagesRequest(_) => 4
    case DeleteMessageRequest(_, _) => 5
    case DeleteAccountRequest(_) => 6
    case ResponseRequest(_) => 7
    case OtherRequest(c) => c
  }

  /** `struct.pack(">B", n)`. */
  function PackByte(n: int): (r: Result<seq<byte>>)
    ensures r.Ok? <==> 0 <= n < 256
    ensures r.Ok? ==> |r.value| == 1 && r.value[0] == n
  {
    if 0 <= n < 256 then Ok([n]) else Err(StructError)
  }

  /** `struct.pack(">I", n)`. */
  function PackU32(n: int): (r: Result<seq<byte>>)
    ensures r.Ok? <==> 0 <= n < TWO32
    ensures r.Ok? ==> |r.value| == 4 && FromBigEndian(r.value) == n
  {
    if 0 <= n < TWO32 then FromU32(n); Ok(U32(n)) else Err(StructError)
  }

  /** The length-prefixed encodings of a list of values, failing on the first that cannot be encoded. */
  function EncodeAll(vs: seq<seq<byte>>): (r: Result<seq<seq<byte>>>)
    ensures r.Ok? ==> |r.value| == |vs|
    ensures r.Ok? ==> forall j :: 0 <= j < |vs| ==> EncodeField(vs[j]) == Ok(r.value[j])
    ensures r.Err? <==> exists j :: 0 <= j < |vs| && |vs[j]| >= TWO32
    ensures r.Err? ==> r.error == StructError
  {
    if vs == [] then Ok([])
    else
      match EncodeAll(vs[..|vs| - 1])
      case Err(e) => assert |vs[..|vs| - 1]| < |vs|; Err(e)
      case Ok(init) =>
        match EncodeField(vs[|vs| - 1])
        case Err(e) => Err(e)
        case Ok(last) =>
          assert forall j :: 0 <= j < |vs| - 1 ==> vs[..|vs| - 1][j] == vs[j];
          Ok(init + [last])
  }

  /** The `fields` list `send` builds for the request. */
  function Fields(req: Request): Result<seq<seq<byte>>> {
    match req
    case LoginRequest(u, p) =>
      var a :- EncodeField(u); var b :- EncodeField(p); Ok([a, b])
    case ListAccountsRequest(n) =>
      var a :- PackByte(n); Ok([a])
    case SendMessageRequest(r, m) =>
      var a :- EncodeField(r); var b :- EncodeField(m); Ok([a, b])
    case ReadMessagesRequest(l) =>
      var a :- PackByte(l); Ok([a])
    case DeleteMessageRequest(r, id) =>
      var a :- EncodeField(r); var b :- PackU32(id); Ok([a, b])
    case DeleteAccountRequest(p) =>
      var a :- EncodeField(p); Ok([a])
    case ResponseRequest(vs) =>
      EncodeAll(vs)
    case OtherRequest(c) =>
      if 1 <= c <= 6 then Err(KeyError) else Ok([])
  }

  /** The bytes `send` hands to `sendall`: a 4-byte big-endian length equal to the body length, then
      the body: action byte, field-count byte, the fields one after the other. */
  function Frame(req: Request): (r: Result<seq<byte>>)
    ensures r.Ok? ==> Fields(req).Ok?
    ensures r.Ok? ==> |r.value| >= 6 && FromBigEndian(r.value[..4]) == |r.value| - 4
    ensures r.Ok? ==> r.value[4] == Code(req) && r.value[5] == |Fields(req).value|
    ensures r.Ok? ==> r.value[6..] == Concat(Fields(req).value)
    ensures (Fields(req).Ok? && 0 <= Code(req) < 256 && |Fields(req).value| < 256
             && 6 + |Concat(Fields(req).value)| < TWO32) ==> r.Ok?
  {
    var fields :- Fields(req);
    if !(0 <= Code(req) < 256) || |fields| >= 256 then Err(StructError)
    else
      var body: seq<byte> := [Code(req), |fields|] + Concat(fields);
      if |body| >= TWO32 then Err(StructError)
      else
        FromU32(|body|);
        assert (U32(|body|) + body)[..4] == U32(|body|);
        assert (U32(|body|) + body)[6..] == Concat(fields);
        Ok(U32(|body|) + body)
  }

  /** The action-7 branch of `send`: one encoded field per keyword argument, appended in a loop. */
  method EncodeValues(vs: seq<seq<byte>>) returns (r: Result<seq<seq<byte>>>)
    ensures r == EncodeAll(vs)
  {
    var fields: seq<seq<byte>> := [];
    for i := 0 to |vs|
      invariant EncodeAll(vs[..i]) == Ok(fields)
    {
      assert vs[..i + 1][..i] == vs[..i];
      var e := EncodeField(vs[i]);
      if e.Err? {
        EncodeAllPrefixErr(vs, i + 1);
        return Err(e.error);
      }
      fields := fields + [e.value];
    }
    assert vs[..|vs|] == vs;
    r := Ok(fields);
  }

  /** The `fields` list of `send`, built branch by branch. */
  method BuildFields(req: Request) returns (r: Result<seq<seq<byte>>>)
    ensures r == Fields(req)
  {
    match req {
      case ResponseRequest(vs) =>
        r := EncodeValues(vs);
      case LoginRequest(u, p) =>
        var a := EncodeField(u);
        if a.Err? { return Err(a.error); }
        var b := EncodeField(p);
        if b.Err? { return Err(b.error); }
        r := Ok([a.value, b.value]);
      case SendMessageRequest(rcpt, m) =>
        var a := EncodeField(rcpt);
        if a.Err? { return Err(a.error); }
        var b := EncodeField(m);
        if b.Err? { return Err(b.error); }
        r := Ok([a.value, b.value]);
      case DeleteMessageRequest(rcpt, id) =>
        var a := EncodeField(rcpt);
        if a.Err? { return Err(a.error); }
        var b := PackU32(id);
        if b.Err? { return Err(b.error); }
        r := Ok([a.value, b.value]);
      case ListAccountsRequest(n) =>
        var a := PackByte(n);
        if a.Err? { return Err(a.error); }
        r := Ok([a.value]);
      case ReadMessagesRequest(l) =>
        var a := PackByte(l);
        if a.Err? { return Err(a.error); }
        r := Ok([a.value]);
      case DeleteAccountRequest(p) =>
        var a := EncodeField(p);
        if a.Err? { return Err(a.error); }
        r := Ok([a.value]);
      case OtherRequest(c) =>
        if 1 <= c <= 6 { return Err(KeyError); }
        r := Ok([]);
    }
  }

  /** `send`: the field list, then the frame around it. */
  method Send(req: Request) returns (r: Result<seq<byte>>)
    ensures r == Frame(req)
  {
    var fields := BuildFields(req);
    if fields.Err? {
      return Err(fields.error);
    }
    var code := Code(req);
    if !(0 <= code < 256) || |fields.value| >= 256 {
      return Err(StructError);
    }
    var message: seq<byte> := [code, |fields.value|] + Concat(fields.value);
    if |message| >= TWO32 {
      return Err(StructError);
    }
    r := Ok(U32(|message|) + message);
  }

  /** Once a prefix of the values fails to encode, the whole list does. */
  lemma EncodeAllPrefixErr(vs: seq<seq<byte>>, k: nat)
    requires k <= |vs| && EncodeAll(vs[..k]).Err?
    ensures EncodeAll(vs).Err?
  {
    var j :| 0 <= j < k && |vs[..k][j]| >= TWO32;
    assert vs[j] == vs[..k][j];
  }

  // ---------------------------------------------------------------------------------------------
  // Receiving a frame

  /** One iteration of `receive`'s field loop: the dictionary and offset after field i. */
  function Step(data: seq<byte>, action: Action, i: nat, offset: nat, d: Dict): Result<(Dict, nat)> {
    match action
    case Login =>
      var f :- ExtractField(data, offset);
      Ok((d[if i == 0 then Username else Password := Text(f.0)], offset + f.1))
    case ListAccounts =>
      if offset >= |data| then Err(StructError) else Ok((d[PageNum := Number(data[offset])], offset + 1))
    case SendMessage =>
      var f :- ExtractField(data, offset);
      Ok((d[if i == 0 then Recipient else MessageText := Text(f.0)], offset + f.1))
    case ReadMessages =>
      if offset >= |data| then Err(StructError) else Ok((d[Limit := Number(data[offset])], offset + 1))
    case DeleteMessage =>
      if i == 0 then
        var f :- ExtractField(data, offset);
        Ok((d[Recipient := Text(f.0)], offset + f.1))
      else if offset + 4 > |data| then Err(StructError)
      else Ok((d[MessageId := Number(FromBigEndian(data[offset..offset + 4]))], offset + 4))
    case DeleteAccount =>
      var f :- ExtractField(data, offset);
      Ok((d[Password := Text(f.0)], offset + f.1))
    case Response =>
      var f :- ExtractField(data, offset);
      Ok((d[if i == 0 then Status else MessageText := Text(f.0)], offset + f.1))
    case Unknown =>
      Ok((d, offset))
  }

  /** The field loop from iteration i on. */
  function Walk(data: seq<byte>, action: Action, count: nat, i: nat, offset: nat, d: Dict): Result<Dict>
    requires i <= count
    decreases count - i
  {
    if i == count then Ok(d)
    else
      var s :- Step(data, action, i, offset, d);
      Walk(data, action, count, i + 1, s.1, s.0)
  }

  /** What `receive(socket)` returns for the stream: None for an empty header or an empty body, an
      error where struct.unpack raises, and otherwise the dictionary of the action and its fields. */
  function Decode(stream: seq<byte>): (r: Result<Option<Dict>>)
    ensures stream == [] ==> r == Ok(None)
    ensures r.Ok? && r.value.Some? ==> |stream| >= 6
  {
    var header := Slice(stream, 0, 4);
    if header == [] then Ok(None)
    else if |header| < 4 then Err(StructError)
    else
      var data := Slice(stream, 4, 4 + FromBigEndian(header));
      if data == [] then Ok(None)
      else if |data| < 2 then Err(StructError)
      else
        var action := ActionOf(data[0]);
        var d :- Walk(data, action, data[1], 0, 2, map[ActionKey := Name(action)]);
        Ok(Some(d))
  }

  /** The body of `receive`'s field loop for field i: the branch chosen by the action name. */
  method ReadField(data: seq<byte>, action: Action, i: nat, offset: nat, d: Dict) returns (r: Result<(Dict, nat)>)
    ensures r == Step(data, action, i, offset, d)
  {
    var d, offset := d, offset;
    match action {
      case Login =>
        var f := ExtractField(data, offset);
        if f.Err? { return Err(f.error); }
        var key := if i == 0 then Username else Password;
        d := d[key := Text(f.value.0)];
        offset := offset + f.value.1;
      case ListAccounts =>
        if offset >= |data| { return Err(StructError); }
        d := d[PageNum := Number(data[offset])];
        offset := offset + 1;
      case SendMessage =>
        var f := ExtractField(data, offset);
        if f.Err? { return Err(f.error); }
        var key := if i == 0 then Recipient else MessageText;
        d := d[key := Text(f.value.0)];
        offset := offset + f.value.1;
      case ReadMessages =>
        if offset >= |data| { return Err(StructError); }
        d := d[Limit := Number(data[offset])];
        offset := offset + 1;
      case DeleteMessage =>
        if i == 0 {
          var f := ExtractField(data, offset);
          if f.Err? { return Err(f.error); }
          d := d[Recipient := Text(f.value.0)];
          offset := offset + f.value.1;
        } else {
          if offset + 4 > |data| { return Err(StructError); }
          d := d[MessageId := Number(FromBigEndian(data[offset..offset + 4]))];
          offset := offset + 4;
        }
      case DeleteAccount =>
        var f := ExtractField(data, offset);
        if f.Err? { return Err(f.error); }
        d := d[Password := Text(f.value.0)];
        offset := offset + f.value.1;
      case Response =>
        var f := ExtractField(data, offset);
        if f.Err? { return Err(f.error); }
        var key := if i == 0 then Status else MessageText;
        d := d[key := Text(f.value.0)];
        offset := offset + f.value.1;
      case Unknown =>
    }
    r := Ok((d, offset));
  }

  /** `receive`: reads the header and body, then walks the field loop with an advancing offset. */
  method Receive(stream: seq<byte>) returns (r: Result<Option<Dict>>)
    ensures r == Decode(stream)
  {
    var header := Slice(stream, 0, 4);
    if header == [] {
      return Ok(None);
    }
    if |header| < 4 {
      return Err(StructError);
    }
    var data := Slice(stream, 4, 4 + FromBigEndian(header));
    if data == [] {
      return Ok(None);
    }
    if |data| < 2 {
      return Err(StructError);
    }
    var action := ActionOf(data[0]);
    var fields := ReadFields(data, action, data[1]);
    if fields.Err? {
      return Err(fields.error);
    }
    r := Ok(Some(fields.value));
  }

  /** `receive`'s field loop: count fields read one after the other from offset 2 on. */
  method ReadFields(data: seq<byte>, action: Action, count: nat) returns (r: Result<Dict>)
    ensures r == Walk(data, action, count, 0, 2, map[ActionKey := Name(action)])
  {
    var d := map[ActionKey := Name(action)];
    var offset: nat := 2;
    for i := 0 to count
      invariant Walk(data, action, count, i, offset, d) == Walk(data, action, count, 0, 2, map[ActionKey := Name(action)])
    {
      var step := ReadField(data, action, i, offset, d);
      if step.Err? {
        return Err(step.error);
      }
      d, offset := step.value.0, step.value.1;
    }
    r := Ok(d);
  }

  // ---------------------------------------------------------------------------------------------
  // Receiving what was sent

  /** The actions whose every field is a length-prefixed string. */
  predicate TextOnly(action: Action) {
    action == Login || action == SendMessage || action == DeleteAccount || action == Response
  }

  /** The key `receive` stores field i under, for the text-only actions. */
  function TextKey(action: Action, i: nat): Key
    requires TextOnly(action)
  {
    match action
    case Login => if i == 0 then Username else Password
    case SendMessage => if i == 0 then Recipient else MessageText
    case DeleteAccount => Password
    case Response => if i == 0 then Status else MessageText
  }

  /** The dictionary after storing values i.. under their keys, one after the other. */
  function Fill(action: Action, vs: seq<seq<byte>>, i: nat, d: Dict): Dict
    requires TextOnly(action) && i <= |vs|
    decreases |vs| - i
  {
    if i == |vs| then d else Fill(action, vs, i + 1, d[TextKey(action, i) := Text(vs[i])])
  }

  /** For a text-only action, one iteration stores the extracted value under the field's key. */
  lemma StepText(data: seq<byte>, action: Action, i: nat, offset: nat, d: Dict)
    requires TextOnly(action) && ExtractField(data, offset).Ok?
    ensures var f := ExtractField(data, offset).value;
            Step(data, action, i, offset, d) == Ok((d[TextKey(action, i) := Text(f.0)], offset + f.1))
  {
  }

  /** Each encs[j] is what `encode_field` makes of the non-empty value vs[j]. */
  predicate EncodesAll(vs: seq<seq<byte>>, encs: seq<seq<byte>>) {
    |encs| == |vs| && forall j :: 0 <= j < |vs| ==> 0 < |vs[j]| && EncodeField(vs[j]) == Ok(encs[j])
  }

  /** Walking a buffer whose bytes after the offset are the encodings of non-empty values i.. stores
      each value under its key. */
  lemma {:induction false} WalkTexts(data: seq<byte>, action: Action, vs: seq<seq<byte>>,
                                     encs: seq<seq<byte>>, i: nat, offset: nat, d: Dict)
    requires TextOnly(action)
    requires EncodesAll(vs, encs) && i <= |vs| && offset <= |data|
    requires data[offset..] == Concat(encs[i..])
    ensures Walk(data, action, |vs|, i, offset, d) == Ok(Fill(action, vs, i, d))
    decreases |vs| - i
  {
    if i < |vs| {
      var e := encs[i];
      var rest := Concat(encs[i + 1..]);
      assert encs[i..][0] == e && encs[i..][1..] == encs[i + 1..];
      assert data[offset..] == e + rest;
      var d' := d[TextKey(action, i) := Text(vs[i])];
      assert 0 < |vs[i]| && EncodeField(vs[i]) == Ok(e);
      WalkOneText(data, action, vs[i], e, rest, |vs|, i, offset, d);
      WalkTexts(data, action, vs, encs, i + 1, offset + |e|, d');
    }
  }

  /** One iteration of WalkTexts: the encoding of v at the offset is consumed and v stored. */
  lemma WalkOneText(data: seq<byte>, action: Action, v: seq<byte>, e: seq<byte>, rest: seq<byte>,
                    count: nat, i: nat, offset: nat, d: Dict)
    requires TextOnly(action) && i < count && offset <= |data|
    requires 0 < |v| && EncodeField(v) == Ok(e) && data[offset..] == e + rest
    ensures data[offset + |e|..] == rest
    ensures Walk(data, action, count, i, offset, d)
            == Walk(data, action, count, i + 1, offset + |e|, d[TextKey(action, i) := Text(v)])
  {
    ExtractEncoded(data, offset, v, rest);
    assert ExtractField(data, offset) == Ok((v, |e|));
    StepText(data, action, i, offset, d);
    assert Step(data, action, i, offset, d) == Ok((d[TextKey(action, i) := Text(v)], offset + |e|));
    assert data[offset..][|e|..] == rest;
  }

  /** What `receive` stores for a response carrying the given values: the first under "status",
      the last of two or more under "message". */
  function ResponseDict(vs: seq<seq<byte>>): Dict {
    map[ActionKey := Name(Response)]
      + (if |vs| >= 1 then map[Status := Text(vs[0])] else map[])
      + (if |vs| >= 2 then map[MessageText := Text(vs[|vs| - 1])] else map[])
  }

  lemma {:induction false} FillResponse(vs: seq<seq<byte>>, i: nat)
    requires i <= |vs|
    ensures Fill(Response, vs, i, ResponseDict(vs[..i])) == ResponseDict(vs)
    decreases |vs| - i
  {
    if i == |vs| {
      assert vs[..i] == vs;
    } else {
      assert vs[..i + 1][..i] == vs[..i];
      assert ResponseDict(vs[..i])[TextKey(Response, i) := Text(vs[i])] == ResponseDict(vs[..i + 1]);
      FillResponse(vs, i + 1);
    }
  }

  /** Every string field of the request is non-empty (the empty string does not survive the trip). */
  predicate NonEmptyTexts(req: Request) {
    match req
    case LoginRequest(u, p) => u != [] && p != []
    case SendMessageRequest(r, m) => r != [] && m != []
    case DeleteMessageRequest(r, _) => r != []
    case DeleteAccountRequest(p) => p != []
    case ResponseRequest(vs) => forall j :: 0 <= j < |vs| ==> vs[j] != []
    case _ => true
  }

  /** The dictionary the receiving side should see for a request. */
  function Expected(req: Request): Dict
    requires Frame(req).Ok?
  {
    match req
    case LoginRequest(u, p) => map[ActionKey := Name(Login), Username := Text(u), Password := Text(p)]
    case ListAccountsRequest(n) => map[ActionKey := Name(ListAccounts), PageNum := Number(n)]
    case SendMessageRequest(r, m) =>
      map[ActionKey := Name(SendMessage), Recipient := Text(r), MessageText := Text(m)]
    case ReadMessagesRequest(l) => map[ActionKey := Name(ReadMessages), Limit := Number(l)]
    case DeleteMessageRequest(r, id) =>
      map[ActionKey := Name(DeleteMessage), Recipient := Text(r), MessageId := Number(id)]
    case DeleteAccountRequest(p) => map[ActionKey := Name(DeleteAccount), Password := Text(p)]
    case ResponseRequest(vs) => ResponseDict(vs)
    case OtherRequest(c) => map[ActionKey := Name(ActionOf(c))]
  }

  /** Decoding a stream that starts with a frame reads exactly that frame's body. */
  lemma DecodeFrame(req: Request, rest: seq<byte>)
    requires Frame(req).Ok?
    ensures var body := Frame(req).value[4..];
            && body == [Code(req), |Fields(req).value|] + Concat(Fields(req).value)
            && var a := ActionOf(body[0]);
               Decode(Frame(req).value + rest)
                 == match Walk(body, a, body[1], 0, 2, map[ActionKey := Name(a)])
                    case Ok(d) => Ok(Some(d))
                    case Err(e) => Err(e)
  {
    var f := Frame(req).value;
    var s := f + rest;
    assert Slice(s, 0, 4) == f[..4];
    assert Slice(s, 4, 4 + FromBigEndian(f[..4])) == f[4..];
  }

  /** The field loop over the body of the request's frame ends with the expected dictionary. */
  predicate BodyWalksToExpected(req: Request)
    requires Frame(req).Ok?
  {
    var body := Frame(req).value[4..];
    var a := ActionOf(body[0]);
    Walk(body, a, body[1], 0, 2, map[ActionKey := Name(a)]) == Ok(Expected(req))
  }

  /** The frame of a text-only request walks to the dictionary Fill computes. */
  lemma SentTexts(req: Request, vs: seq<seq<byte>>)
    requires Frame(req).Ok? && 0 <= Code(req) < 256 && TextOnly(ActionOf(Code(req)))
    requires EncodesAll(vs, Fields(req).value)
    ensures var body := Frame(req).value[4..];
            var a := ActionOf(body[0]);
            TextOnly(a) && Walk(body, a, body[1], 0, 2, map[ActionKey := Name(a)])
                           == Ok(Fill(a, vs, 0, map[ActionKey := Name(a)]))
  {
    var f := Frame(req).value;
    var body := f[4..];
    assert body[0] == Code(req) && body[1] == |vs|;
    assert body[2..] == Concat(Fields(req).value[0..]);
    var a := ActionOf(Code(req));
    WalkTexts(body, a, vs, Fields(req).value, 0, 2, map[ActionKey := Name(a)]);
  }

  lemma SentLogin(u: seq<byte>, p: seq<byte>)
    requires Frame(LoginRequest(u, p)).Ok? && u != [] && p != []
    ensures BodyWalksToExpected(LoginRequest(u, p))
  {
    assert Fields(LoginRequest(u, p)).value == [EncodeField(u).value, EncodeField(p).value];
    SentTexts(LoginRequest(u, p), [u, p]);
    var d0 := map[ActionKey := Name(Login)];
    assert Fill(Login, [u, p], 2, d0[Username := Text(u)][Password := Text(p)])
           == d0[Username := Text(u)][Password := Text(p)];
  }

  lemma SentSendMessage(r: seq<byte>, m: seq<byte>)
    requires Frame(SendMessageRequest(r, m)).Ok? && r != [] && m != []
    ensures BodyWalksToExpected(SendMessageRequest(r, m))
  {
    assert Fields(SendMessageRequest(r, m)).value == [EncodeField(r).value, EncodeField(m).value];
    SentTexts(SendMessageRequest(r, m), [r, m]);
    var d0 := map[ActionKey := Name(SendMessage)];
    assert Fill(SendMessage, [r, m], 2, d0[Recipient := Text(r)][MessageText := Text(m)])
           == d0[Recipient := Text(r)][MessageText := Text(m)];
  }

  lemma SentDeleteAccount(p: seq<byte>)
    requires Frame(DeleteAccountRequest(p)).Ok? && p != []
    ensures BodyWalksToExpected(DeleteAccountRequest(p))
  {
    assert Fields(DeleteAccountRequest(p)).value == [EncodeField(p).value];
    SentTexts(DeleteAccountRequest(p), [p]);
    var d0 := map[ActionKey := Name(DeleteAccount)];
    assert Fill(DeleteAccount, [p], 1, d0[Password := Text(p)]) == d0[Password := Text(p)];
  }

  lemma SentResponse(vs: seq<seq<byte>>)
    requires Frame(ResponseRequest(vs)).Ok? && forall j :: 0 <= j < |vs| ==> vs[j] != []
    ensures BodyWalksToExpected(ResponseRequest(vs))
  {
    var req := ResponseRequest(vs);
    var fields := EncodeAll(vs).value;
    assert Fields(req).value == fields;
    assert Code(req) == 7 && TextOnly(ActionOf(7));
    assert EncodesAll(vs, fields);
    SentTexts(req, vs);
    FillResponse(vs, 0);
    assert vs[..0] == [];
    assert ResponseDict(vs[..0]) == map[ActionKey := Name(Response)];
  }

  lemma SentDeleteMessage(r: seq<byte>, id: int)
    requires Frame(DeleteMessageRequest(r, id)).Ok? && r != []
    ensures BodyWalksToExpected(DeleteMessageRequest(r, id))
  {
    var req := DeleteMessageRequest(r, id);
    var f := Frame(req).value;
    var body := f[4..];
    var e := EncodeField(r).value;
    var n := U32(id);
    assert Fields(req).value == [e, n];
    assert Concat([e, n]) == e + n by {
      assert Concat([n]) == n;
    }
    assert body == [f[4], f[5]] + f[6..];
    assert body[2..] == e + n;
    ExtractEncoded(body, 2, r, n);
    var o := 2 + |e|;
    assert body[o..o + 4] == n;
    FromU32(id);
    var d0 := map[ActionKey := Name(DeleteMessage)];
    var d1 := d0[Recipient := Text(r)];
    var d2 := d1[MessageId := Number(id)];
    assert Step(body, DeleteMessage, 0, 2, d0) == Ok((d1, o));
    assert Step(body, DeleteMessage, 1, o, d1) == Ok((d2, o + 4));
    assert Walk(body, DeleteMessage, 2, 2, o + 4, d2) == Ok(d2);
    assert Walk(body, DeleteMessage, 2, 1, o, d1) == Ok(d2);
  }

  /** Receiving what `send` wrote gives back the request's fields under their keys, for every
      request whose string fields are non-empty; bytes after the frame are not read. */
  lemma ReceiveSent(req: Request, rest: seq<byte>)
    requires Frame(req).Ok? && NonEmptyTexts(req)
    ensures Decode(Frame(req).value + rest) == Ok(Some(Expected(req)))
  {
    DecodeFrame(req, rest);
    match req {
      case LoginRequest(u, p) => SentLogin(u, p);
      case SendMessageRequest(r, m) => SentSendMessage(r, m);
      case DeleteAccountRequest(p) => SentDeleteAccount(p);
      case ResponseRequest(vs) => SentResponse(vs);
      case DeleteMessageRequest(r, id) => SentDeleteMessage(r, id);
      case ListAccountsRequest(n) =>
      case ReadMessagesRequest(l) =>
      case OtherRequest(c) =>
    }
  }

  /** Whatever the frame, `receive`'s result always holds the action name. */
  lemma {:induction false} WalkKeepsAction(data: seq<byte>, action: Action, count: nat, i: nat, offset: nat, d: Dict)
    requires i <= count && ActionKey in d
    ensures Walk(data, action, count, i, offset, d).Ok? ==>
              ActionKey in Walk(data, action, count, i, offset, d).value
              && Walk(data, action, count, i, offset, d).value[ActionKey] == d[ActionKey]
    decreases count - i
  {
    if i < count {
      var s := Step(data, action, i, offset, d);
      if s.Ok? {
        WalkKeepsAction(data, action, count, i + 1, s.value.1, s.value.0);
      }
    }
  }

  lemma ReceivedHasAction(stream: seq<byte>)
    requires Decode(stream).Ok? && Decode(stream).value.Some?
    ensures ActionKey in Decode(stream).value.value
    ensures Decode(stream).value.value[ActionKey] == Name(ActionOf(Slice(stream, 4, 5)[0]))
  {
    var header := Slice(stream, 0, 4);
    var data := Slice(stream, 4, 4 + FromBigEndian(header));
    assert Slice(stream, 4, 5) == data[..1];
    var action := ActionOf(data[0]);
    WalkKeepsAction(data, action, data[1], 0, 2, map[ActionKey := Name(action)]);
  }

  /** For an action code outside 1..7 no branch of the field loop fires: whatever the field count
      says, the result holds only the action key. */
  lemma {:induction false} WalkUnknown(data: seq<byte>, count: nat, i: nat, offset: nat, d: Dict)
    requires i <= count
    ensures Walk(data, Unknown, count, i, offset, d) == Ok(d)
    decreases count - i
  {
    if i < count {
      WalkUnknown(data, count, i + 1, offset, d);
    }
  }

  lemma UnknownActionOnlyKey(stream: seq<byte>)
    requires |stream| >= 6 && FromBigEndian(stream[..4]) >= 2 && !(1 <= stream[4] <= 7)
    ensures Decode(stream) == Ok(Some(map[ActionKey := Name(Unknown)]))
  {
    var data := Slice(stream, 4, 4 + FromBigEndian(stream[..4]));
    assert data[0] == stream[4];
    WalkUnknown(data, data[1], 0, 2, map[ActionKey := Name(Unknown)]);
  }
}
