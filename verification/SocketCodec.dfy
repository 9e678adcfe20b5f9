/** The socket codec: JSON with binary data wrapped as base64 objects. The replacer works from
    the top down while a value is written, the reviver from the bottom up while it is read. */
module SocketCodec {
  import opened Options
  import opened Base64

  datatype Field = Field(key: string, value: Js)

  /** Values without functions, `undefined` or non-finite numbers. */
  datatype Js =
    | Null
    | Bool(b: bool)
    | Num(n: real)
    | Str(s: string)
    | Arr(items: seq<Js>)
    | Obj(fields: seq<Field>)
    | ArrayBuf(bytes: Bytes)
    | Buf(bytes: Bytes)

  /** What the platform does where the codec relies on it: decoding text that is not a proper
      base64 encoding, turning an array element that is no number into a byte, and the JSON text
      of a value. */
  datatype Platform = Platform(lenientDecode: string -> Bytes, coerce: Js -> bv8, text: Js -> string)

  function Lookup(fields: seq<Field>, key: string): Option<Js> {
    if fields == [] then None
    else if fields[0].key == key then Some(fields[0].value)
    else Lookup(fields[1..], key)
  }

  /** The object has this property. (Of several fields with one key, the first counts.) */
  ghost predicate HasField(fields: seq<Field>, key: string, v: Js) {
    exists i :: 0 <= i < |fields| && fields[i] == Field(key, v) && forall j | 0 <= j < i :: fields[j].key != key
  }

  lemma {:induction false} LookupMeans(fields: seq<Field>, key: string, v: Js)
    ensures Lookup(fields, key) == Some(v) <==> HasField(fields, key, v)
  {
    if fields != [] {
      var rest := fields[1..];
      LookupMeans(rest, key, v);
      if fields[0].key != key {
        if i :| 0 <= i < |rest| && rest[i] == Field(key, v) && forall j | 0 <= j < i :: rest[j].key != key {
          assert fields[i + 1] == Field(key, v);
          assert forall j | 0 < j < i + 1 :: fields[j] == rest[j - 1];
        }
        if i :| 0 <= i < |fields| && fields[i] == Field(key, v) && forall j | 0 <= j < i :: fields[j].key != key {
          assert rest[i - 1] == Field(key, v);
          assert forall j | 0 <= j < i - 1 :: rest[j] == fields[j + 1];
        }
      }
    }
  }

  // ----- Bytes of an array -----

  function Truncate(n: real): int {
    if n < 0.0 then -((-n).Floor) else n.Floor
  }

  function ByteOf(p: Platform, v: Js): bv8 {
    if v.Num? then (Truncate(v.n) % 256) as bv8 else p.coerce(v)
  }

  function BytesOf(p: Platform, items: seq<Js>): Bytes {
    seq(|items|, i requires 0 <= i < |items| => ByteOf(p, items[i]))
  }

  function Numbers(bytes: Bytes): seq<Js> {
    seq(|bytes|, i requires 0 <= i < |bytes| => Num((bytes[i] as int) as real))
  }

  lemma ByteOfNumber(p: Platform, b: bv8)
    ensures ByteOf(p, Num((b as int) as real)) == b
  {
    TruncateInt(b as int);
    ByteOfInt(b);
  }

  lemma TruncateMeans(n: real)
    ensures var t := Truncate(n);
      if n >= 0.0 then t as real <= n < t as real + 1.0 else t as real - 1.0 < n <= t as real
  {
  }

  lemma LastBits(m: nat)
    requires m < 256
    ensures (m as bv8) as int == m
  {
  }

  /** A number is cut off towards zero, and its last eight bits are kept. */
  lemma ByteOfMeans(p: Platform, n: real) returns (t: int)
    ensures if n >= 0.0 then t as real <= n < t as real + 1.0 else t as real - 1.0 < n <= t as real
    ensures ByteOf(p, Num(n)) as int == t % 256
  {
    t := Truncate(n);
    TruncateMeans(n);
    LastBits(t % 256);
  }

  lemma TruncateInt(n: nat)
    ensures Truncate(n as real) == n
  {
  }

  lemma ByteOfInt(b: bv8)
    ensures 0 <= b as int < 256 && (b as int) as bv8 == b
  {
  }

  lemma BytesOfNumbers(p: Platform, bytes: Bytes)
    ensures BytesOf(p, Numbers(bytes)) == bytes
  {
    forall i | 0 <= i < |bytes| ensures BytesOf(p, Numbers(bytes))[i] == bytes[i] {
      ByteOfNumber(p, bytes[i]);
    }
  }

  // ----- Writing -----

  /** An object with `type: "Buffer"` and an array as `data`. */
  predicate BufferLike(fields: seq<Field>) {
    && Lookup(fields, "type") == Some(Str("Buffer"))
    && (match Lookup(fields, "data") case Some(Arr(_)) => true case _ => false)
  }

  /** An object with `base64: true` and a string as `data`. */
  predicate Base64Like(fields: seq<Field>) {
    && Lookup(fields, "base64") == Some(Bool(true))
    && (match Lookup(fields, "data") case Some(Str(_)) => true case _ => false)
  }

  function Wrapped(bytes: Bytes): Js {
    Obj([Field("base64", Bool(true)), Field("data", Str(Encoding(bytes)))])
  }

  /** `JSON.stringify` calls `toJSON` before the replacer sees a value; only buffers have one. */
  function ToJson(v: Js): Js {
    if v.Buf? then Obj([Field("type", Str("Buffer")), Field("data", Arr(Numbers(v.bytes)))]) else v
  }

  function BinaryToBase64(p: Platform, v: Js): Js {
    match v
    case ArrayBuf(bytes) => Wrapped(bytes)
    case Buf(bytes) => Wrapped(bytes)
    case Obj(fields) =>
      if BufferLike(fields) then Wrapped(BytesOf(p, Lookup(fields, "data").value.items)) else v
    case _ => v
  }

  lemma BufferAsJson(p: Platform, bytes: Bytes)
    ensures BinaryToBase64(p, ToJson(Buf(bytes))) == Wrapped(bytes)
  {
    var fields := ToJson(Buf(bytes)).fields;
    assert fields[1..] == [Field("data", Arr(Numbers(bytes)))];
    assert Lookup(fields, "data") == Some(Arr(Numbers(bytes)));
    BytesOfNumbers(p, bytes);
  }

  function Size(v: Js): nat {
    match v
    case Arr(items) => 1 + SizeOfItems(items)
    case Obj(fields) => 1 + SizeOfFields(fields)
    case ArrayBuf(_) => 4
    case Buf(_) => 4
    case _ => 1
  }

  function SizeOfItems(items: seq<Js>): nat {
    if items == [] then 0 else Size(items[0]) + SizeOfItems(items[1..])
  }

  function SizeOfFields(fields: seq<Field>): nat {
    if fields == [] then 0 else 1 + Size(fields[0].value) + SizeOfFields(fields[1..])
  }

  lemma {:induction false} LookupSize(fields: seq<Field>, key: string)
    requires Lookup(fields, key).Some?
    ensures SizeOfFields(fields) >= 1 + Size(Lookup(fields, key).value)
  {
    if fields[0].key != key { LookupSize(fields[1..], key); }
  }

  lemma {:induction false} BufferLikeSize(fields: seq<Field>)
    requires BufferLike(fields)
    ensures SizeOfFields(fields) >= 4
  {
    if fields[0].key == "type" {
      LookupSize(fields[1..], "data");
    } else if fields[0].key == "data" {
      LookupSize(fields[1..], "type");
    } else {
      BufferLikeSize(fields[1..]);
    }
  }

  lemma PairSize(fields: seq<Field>)
    requires |fields| == 2
    ensures SizeOfFields(fields) == 2 + Size(fields[0].value) + Size(fields[1].value)
  {
    assert |fields[1..]| == 1 && fields[1..][0] == fields[1] && fields[1..][1..] == [];
    assert SizeOfFields(fields[1..]) == 1 + Size(fields[1].value);
  }

  lemma ReplacementSize(p: Platform, v: Js)
    ensures
      var r := BinaryToBase64(p, ToJson(v));
      && (r.Arr? ==> SizeOfItems(r.items) < Size(v))
      && (r.Obj? ==> SizeOfFields(r.fields) <= Size(v))
  {
    var r := BinaryToBase64(p, ToJson(v));
    if v.Buf? { BufferAsJson(p, v.bytes); }
    if r != v {
      if v.Obj? { BufferLikeSize(v.fields); }
      PairSize(r.fields);
    }
  }

  /** The tree of the text that `JSON.stringify` writes: the replacer is applied to a value
      first and then to the members of the result. */
  function Write(p: Platform, v: Js): Js
    decreases Size(v), 1
  {
    ReplacementSize(p, v);
    var r := BinaryToBase64(p, ToJson(v));
    match r
    case Arr(items) => Arr(WriteItems(p, items))
    case Obj(fields) => Obj(WriteFields(p, fields))
    case _ => r
  }

  function WriteItems(p: Platform, items: seq<Js>): seq<Js>
    decreases SizeOfItems(items), 2
  {
    if items == [] then [] else [Write(p, items[0])] + WriteItems(p, items[1..])
  }

  function WriteFields(p: Platform, fields: seq<Field>): seq<Field>
    decreases SizeOfFields(fields), 0
  {
    if fields == [] then []
    else [Field(fields[0].key, Write(p, fields[0].value))] + WriteFields(p, fields[1..])
  }

  // ----- Reading -----

  function NodeDecode(p: Platform, s: string): Bytes {
    match Decoded(s) case Some(bytes) => bytes case None => p.lenientDecode(s)
  }

  function Base64ToBinary(p: Platform, v: Js): Js {
    if v.Obj? && Base64Like(v.fields) then Buf(NodeDecode(p, Lookup(v.fields, "data").value.s)) else v
  }

  /** The reviver is applied to the members of a value first and then to the result. */
  function Read(p: Platform, v: Js): Js
    decreases v, 1
  {
    var r := match v
      case Arr(items) => Arr(ReadItems(p, items))
      case Obj(fields) => Obj(ReadFields(p, fields))
      case _ => v;
    Base64ToBinary(p, r)
  }

  function ReadItems(p: Platform, items: seq<Js>): seq<Js>
    decreases items, 0
  {
    if items == [] then [] else [Read(p, items[0])] + ReadItems(p, items[1..])
  }

  function ReadFields(p: Platform, fields: seq<Field>): seq<Field>
    decreases fields, 0
  {
    if fields == [] then []
    else [Field(fields[0].key, Read(p, fields[0].value))] + ReadFields(p, fields[1..])
  }

  // ----- What a round trip does -----

  /** Array buffers become buffers, and so do the objects that look like a written or an
      unwritten buffer; everything else stays. */
  function Norm(p: Platform, v: Js): Js
    decreases v, 1
  {
    match v
    case ArrayBuf(bytes) => Buf(bytes)
    case Arr(items) => Arr(NormItems(p, items))
    case Obj(fields) =>
      if BufferLike(fields) then Buf(BytesOf(p, Lookup(fields, "data").value.items))
      else if Base64Like(fields) then Buf(NodeDecode(p, Lookup(fields, "data").value.s))
      else Obj(NormFields(p, fields))
    case _ => v
  }

  function NormItems(p: Platform, items: seq<Js>): seq<Js>
    decreases items, 0
  {
    if items == [] then [] else [Norm(p, items[0])] + NormItems(p, items[1..])
  }

  function NormFields(p: Platform, fields: seq<Field>): seq<Field>
    decreases fields, 0
  {
    if fields == [] then []
    else [Field(fields[0].key, Norm(p, fields[0].value))] + NormFields(p, fields[1..])
  }

  lemma {:induction false} NormLookup(p: Platform, fields: seq<Field>, key: string)
    ensures Lookup(NormFields(p, fields), key) ==
      match Lookup(fields, key) case Some(v) => Some(Norm(p, v)) case None => None
  {
    if fields != [] && fields[0].key != key {
      NormLookup(p, fields[1..], key);
      assert NormFields(p, fields)[1..] == NormFields(p, fields[1..]);
    }
  }

  lemma WrappedIsLiteral(p: Platform, bytes: Bytes)
    ensures Wrapped(bytes).Obj?
    ensures WriteFields(p, Wrapped(bytes).fields) == Wrapped(bytes).fields
    ensures ReadFields(p, Wrapped(bytes).fields) == Wrapped(bytes).fields
    ensures Lookup(Wrapped(bytes).fields, "base64") == Some(Bool(true))
    ensures Lookup(Wrapped(bytes).fields, "data") == Some(Str(Encoding(bytes)))
  {
    var fields := Wrapped(bytes).fields;
    var tail := [Field("data", Str(Encoding(bytes)))];
    assert fields[1..] == tail && tail[1..] == [];
    assert Write(p, Bool(true)) == Bool(true);
    assert Write(p, Str(Encoding(bytes))) == Str(Encoding(bytes));
    assert WriteFields(p, tail) == tail;
    assert ReadFields(p, tail) == tail;
  }

  lemma WrappedRoundTrip(p: Platform, v: Js, bytes: Bytes)
    requires BinaryToBase64(p, ToJson(v)) == Wrapped(bytes)
    ensures Read(p, Write(p, v)) == Buf(bytes)
  {
    WrappedIsLiteral(p, bytes);
    DecodedOfEncoding(bytes);
    assert Write(p, v) == Wrapped(bytes);
  }

  /** Reading back what was written gives the normal form, at every depth. */
  lemma {:induction false} RoundTrip(p: Platform, v: Js)
    ensures Read(p, Write(p, v)) == Norm(p, v)
    decreases v, 1
  {
    match v
    case ArrayBuf(bytes) => WrappedRoundTrip(p, v, bytes);
    case Buf(bytes) =>
      BufferAsJson(p, bytes);
      WrappedRoundTrip(p, v, bytes);
    case Arr(items) => RoundTripItems(p, items);
    case Obj(fields) =>
      if BufferLike(fields) {
        WrappedRoundTrip(p, v, BytesOf(p, Lookup(fields, "data").value.items));
      } else {
        RoundTripFields(p, fields);
        NormLookup(p, fields, "base64");
        NormLookup(p, fields, "data");
      }
    case _ =>
  }

  lemma {:induction false} RoundTripItems(p: Platform, items: seq<Js>)
    ensures ReadItems(p, WriteItems(p, items)) == NormItems(p, items)
    decreases items, 0
  {
    if items != [] {
      RoundTrip(p, items[0]);
      RoundTripItems(p, items[1..]);
      assert WriteItems(p, items)[1..] == WriteItems(p, items[1..]);
    }
  }

  lemma {:induction false} RoundTripFields(p: Platform, fields: seq<Field>)
    ensures ReadFields(p, WriteFields(p, fields)) == NormFields(p, fields)
    decreases fields, 0
  {
    if fields != [] {
      RoundTrip(p, fields[0].value);
      RoundTripFields(p, fields[1..]);
      assert WriteFields(p, fields)[1..] == WriteFields(p, fields[1..]);
    }
  }

  /** `base64: true` and a text as `data`. */
  ghost predicate LooksWritten(fields: seq<Field>) {
    HasField(fields, "base64", Bool(true)) && exists s: string :: HasField(fields, "data", Str(s))
  }

  /** `type: "Buffer"` and an array as `data`. */
  ghost predicate LooksUnwritten(fields: seq<Field>) {
    HasField(fields, "type", Str("Buffer")) && exists items: seq<Js> :: HasField(fields, "data", Arr(items))
  }

  lemma LooksMean(fields: seq<Field>)
    ensures LooksWritten(fields) <==> Base64Like(fields)
    ensures LooksUnwritten(fields) <==> BufferLike(fields)
  {
    LookupMeans(fields, "base64", Bool(true));
    LookupMeans(fields, "type", Str("Buffer"));
    var data := Lookup(fields, "data");
    if data.Some? { LookupMeans(fields, "data", data.value); }
    forall v | HasField(fields, "data", v) ensures data == Some(v) {
      LookupMeans(fields, "data", v);
    }
  }

  /** No array buffer and no look-alike at any depth. */
  ghost predicate Plain(v: Js) {
    match v
    case ArrayBuf(_) => false
    case Arr(items) => forall i | 0 <= i < |items| :: Plain(items[i])
    case Obj(fields) =>
      && !LooksWritten(fields) && !LooksUnwritten(fields)
      && forall i | 0 <= i < |fields| :: Plain(fields[i].value)
    case _ => true
  }

  lemma {:induction false} NormUnchanged(p: Platform, v: Js)
    ensures Norm(p, v) == v <==> Plain(v)
    decreases v, 1
  {
    match v
    case Arr(items) => NormItemsUnchanged(p, items);
    case Obj(fields) =>
      LooksMean(fields);
      NormFieldsUnchanged(p, fields);
    case _ =>
  }

  lemma {:induction false} NormItemsUnchanged(p: Platform, items: seq<Js>)
    ensures NormItems(p, items) == items <==> forall i | 0 <= i < |items| :: Plain(items[i])
    decreases items, 0
  {
    if items != [] {
      NormUnchanged(p, items[0]);
      NormItemsUnchanged(p, items[1..]);
      assert items == [items[0]] + items[1..];
      assert NormItems(p, items)[0] == Norm(p, items[0]) && NormItems(p, items)[1..] == NormItems(p, items[1..]);
      assert (forall i | 0 <= i < |items| :: Plain(items[i])) <==>
        Plain(items[0]) && forall i | 0 <= i < |items[1..]| :: Plain(items[1..][i]);
    }
  }

  lemma {:induction false} NormFieldsUnchanged(p: Platform, fields: seq<Field>)
    ensures NormFields(p, fields) == fields <==> forall i | 0 <= i < |fields| :: Plain(fields[i].value)
    decreases fields, 0
  {
    if fields != [] {
      NormUnchanged(p, fields[0].value);
      NormFieldsUnchanged(p, fields[1..]);
      assert fields == [fields[0]] + fields[1..];
      assert NormFields(p, fields)[0].value == Norm(p, fields[0].value);
      assert NormFields(p, fields)[1..] == NormFields(p, fields[1..]);
      assert (forall i | 0 <= i < |fields| :: Plain(fields[i].value)) <==>
        Plain(fields[0].value) && forall i | 0 <= i < |fields[1..]| :: Plain(fields[1..][i].value);
    }
  }

  /** A value comes back unchanged exactly if it is plain. */
  lemma RoundTripUnchanged(p: Platform, v: Js)
    ensures Read(p, Write(p, v)) == v <==> Plain(v)
  {
    RoundTrip(p, v);
    NormUnchanged(p, v);
  }

  lemma NormIsNoBufferLike(p: Platform, fields: seq<Field>)
    requires !BufferLike(fields) && !Base64Like(fields)
    ensures !BufferLike(NormFields(p, fields)) && !Base64Like(NormFields(p, fields))
  {
    NormLookup(p, fields, "type");
    NormLookup(p, fields, "base64");
    NormLookup(p, fields, "data");
  }

  lemma NormLooksTheSame(p: Platform, fields: seq<Field>)
    requires !BufferLike(fields) && !Base64Like(fields)
    ensures !LooksWritten(NormFields(p, fields)) && !LooksUnwritten(NormFields(p, fields))
  {
    NormIsNoBufferLike(p, fields);
    LooksMean(NormFields(p, fields));
  }

  /** What comes back is plain, so a second round trip changes nothing more. */
  lemma {:induction false} NormIsPlain(p: Platform, v: Js)
    ensures Plain(Norm(p, v))
    decreases v, 1
  {
    match v
    case Arr(items) => NormItemsArePlain(p, items);
    case Obj(fields) =>
      NormFieldsArePlain(p, fields);
      if !BufferLike(fields) && !Base64Like(fields) { NormLooksTheSame(p, fields); }
    case _ =>
  }

  lemma {:induction false} NormItemsArePlain(p: Platform, items: seq<Js>)
    ensures forall i | 0 <= i < |NormItems(p, items)| :: Plain(NormItems(p, items)[i])
    decreases items, 0
  {
    if items != [] {
      NormIsPlain(p, items[0]);
      NormItemsArePlain(p, items[1..]);
    }
  }

  lemma {:induction false} NormFieldsArePlain(p: Platform, fields: seq<Field>)
    ensures forall i | 0 <= i < |NormFields(p, fields)| :: Plain(NormFields(p, fields)[i].value)
    decreases fields, 0
  {
    if fields != [] {
      NormIsPlain(p, fields[0].value);
      NormFieldsArePlain(p, fields[1..]);
    }
  }

  lemma SecondRoundTrip(p: Platform, v: Js)
    ensures var w := Read(p, Write(p, v)); Read(p, Write(p, w)) == w
  {
    RoundTrip(p, v);
    NormIsPlain(p, v);
    RoundTripUnchanged(p, Norm(p, v));
  }

  // ----- Reading what others have written -----

  /** No object at any depth looks like a written buffer. */
  ghost predicate NothingWritten(v: Js) {
    match v
    case Arr(items) => forall i | 0 <= i < |items| :: NothingWritten(items[i])
    case Obj(fields) => !LooksWritten(fields) && forall i | 0 <= i < |fields| :: NothingWritten(fields[i].value)
    case _ => true
  }

  /** Reading leaves a tree as it is exactly if no object in it looks like a written buffer. */
  lemma {:induction false} ReadUnchanged(p: Platform, v: Js)
    ensures Read(p, v) == v <==> NothingWritten(v)
    decreases v, 1
  {
    match v
    case Arr(items) => ReadItemsUnchanged(p, items);
    case Obj(fields) =>
      LooksMean(fields);
      ReadFieldsUnchanged(p, fields);
      if ReadFields(p, fields) == fields {
        assert Read(p, v) == Base64ToBinary(p, v);
      }
    case _ =>
  }

  lemma {:induction false} ReadItemsUnchanged(p: Platform, items: seq<Js>)
    ensures ReadItems(p, items) == items <==> forall i | 0 <= i < |items| :: NothingWritten(items[i])
    decreases items, 0
  {
    if items != [] {
      ReadUnchanged(p, items[0]);
      ReadItemsUnchanged(p, items[1..]);
      assert items == [items[0]] + items[1..];
      assert ReadItems(p, items)[0] == Read(p, items[0]) && ReadItems(p, items)[1..] == ReadItems(p, items[1..]);
      assert (forall i | 0 <= i < |items| :: NothingWritten(items[i])) <==>
        NothingWritten(items[0]) && forall i | 0 <= i < |items[1..]| :: NothingWritten(items[1..][i]);
    }
  }

  lemma {:induction false} ReadFieldsUnchanged(p: Platform, fields: seq<Field>)
    ensures ReadFields(p, fields) == fields <==> forall i | 0 <= i < |fields| :: NothingWritten(fields[i].value)
    decreases fields, 0
  {
    if fields != [] {
      ReadUnchanged(p, fields[0].value);
      ReadFieldsUnchanged(p, fields[1..]);
      assert fields == [fields[0]] + fields[1..];
      assert ReadFields(p, fields)[0].value == Read(p, fields[0].value);
      assert ReadFields(p, fields)[1..] == ReadFields(p, fields[1..]);
      assert (forall i | 0 <= i < |fields| :: NothingWritten(fields[i].value)) <==>
        NothingWritten(fields[0].value) && forall i | 0 <= i < |fields[1..]| :: NothingWritten(fields[1..][i].value);
    }
  }

  // ----- Whole messages -----

  /** A message on the wire: a text as it is, or the JSON text of a tree. */
  datatype Message = Raw(s: string) | Json(tree: Js)

  function Encode(p: Platform, v: Js): Message {
    if v == Str("#1") || v == Str("#2") then Raw(v.s) else Json(Write(p, v))
  }

  /** None stands for `undefined`. A text that does not start like an object or an array is
      returned unparsed. */
  function Decode(p: Platform, m: Message): Option<Js> {
    match m
    case Raw(s) => if s == "" then None else Some(Str(s))
    case Json(tree) =>
      if tree.Arr? || tree.Obj? then Some(Read(p, tree)) else Some(Str(p.text(tree)))
  }

  /** JSON puts quotes around a string. */
  ghost predicate Quotes(p: Platform) {
    forall s :: |p.text(Str(s))| >= |s| + 2
  }

  predicate Travels(v: Js) {
    v.Arr? || v.Obj? || v.ArrayBuf? || v.Buf? || v == Str("#1") || v == Str("#2")
  }

  /** Decoding an encoded message gives the normal form exactly for containers, binary data and
      the ping and pong messages; other values come back as their JSON text. */
  lemma MessageRoundTrip(p: Platform, v: Js)
    requires Quotes(p)
    ensures Decode(p, Encode(p, v)) == Some(Norm(p, v)) <==> Travels(v)
    ensures !Travels(v) ==> Decode(p, Encode(p, v)) == Some(Str(p.text(v)))
  {
    RoundTrip(p, v);
    if v.Str? {
      assert |p.text(Str(v.s))| >= |v.s| + 2;
    }
  }

  /** Messages from anyone: a text that is not empty stays as it is, an empty one gives nothing, the
      JSON text of an object or an array is read, and any other JSON text stays text. */
  lemma IncomingMessages(p: Platform, s: string, tree: Js)
    ensures Decode(p, Raw(s)) == Some(Str(s)) <==> s != ""
    ensures Decode(p, Raw("")) == None
    ensures tree.Arr? || tree.Obj? ==> (Decode(p, Json(tree)) == Some(tree) <==> NothingWritten(tree))
    ensures !tree.Arr? && !tree.Obj? ==> Decode(p, Json(tree)) == Some(Str(p.text(tree)))
  {
    ReadUnchanged(p, tree);
  }
}
