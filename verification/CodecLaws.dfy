/** The laws of the wire format: reading undoes writing, writing undoes reading up to padding,
    and no sequence of reads leaves the packet. */
module CodecLaws {
  import opened Base
  import opened Wire
  import opened Codec

  // ---------- alignment ----------

  lemma EncodeAligned(t: Target, v: Value)
    requires Encodable(v)
    ensures |Encode(t, v)| % 4 == 0
  {
    if v.NewObjectValue? {
      AlignedSum(|Block(t, v.interface + [0])|, 8);
    }
  }

  /** Whatever is pushed, in whatever order, the payload stays a multiple of four bytes long. */
  lemma {:induction false} PayloadAligned(t: Target, vs: seq<Value>)
    requires AllEncodable(vs)
    ensures |EncodeAll(t, vs)| % 4 == 0
  {
    if vs != [] {
      EncodeAligned(t, vs[0]);
      PayloadAligned(t, vs[1..]);
      AlignedSum(|Encode(t, vs[0])|, |EncodeAll(t, vs[1..])|);
    }
  }

  // ---------- what is on the wire ----------

  /** A length, that many bytes, and zero bytes up to the next multiple of four. */
  predicate LaidOut(t: Target, b: seq<byte>, data: seq<byte>)
  {
    && |b| == 4 + (|data| + 3) / 4 * 4
    && BytesWord(t, b[..4]) == |data| && b[4..4 + |data|] == data
    && forall i :: 4 + |data| <= i < |b| ==> b[i] == 0
  }

  /** A word, and nothing else. */
  predicate OneWord(t: Target, b: seq<byte>, w: int)
  {
    |b| == 4 && BytesWord(t, b) == w
  }

  lemma BlockLaidOut(t: Target, data: seq<byte>)
    requires |data| < 0x1_0000_0000
    ensures LaidOut(t, Block(t, data), data)
  {
    var b, word := Block(t, data), WordBytes(t, |data|);
    assert b[..4] == word;
    assert Pad(|data|) == (|data| + 3) / 4 * 4 - |data|;
  }

  /** What each kind of value looks like on the wire. */
  lemma WireLayout(t: Target, v: Value)
    requires Encodable(v)
    ensures var b := Encode(t, v);
            match v
            case UintValue(u) => OneWord(t, b, u)
            case IntValue(i) => OneWord(t, b, if i < 0 then i + 0x1_0000_0000 else i)
            case FixedValue(i) => OneWord(t, b, if i < 0 then i + 0x1_0000_0000 else i)
            case ObjectValue(o) => OneWord(t, b, if o.Some? then o.value else 0)
            case NewIdValue(id) => OneWord(t, b, id)
            case StringValue(s) => LaidOut(t, b, s + [0])
            case ArrayValue(a) => LaidOut(t, b, a)
            case NewObjectValue(s, version, id) =>
              var n := |b| - 8;
              n >= 0 && LaidOut(t, b[..n], s + [0]) && OneWord(t, b[n..n + 4], version) && OneWord(t, b[n + 4..], id)
            case FdValue(_) => b == []
  {
    match v
    case StringValue(s) => BlockLaidOut(t, s + [0]);
    case ArrayValue(a) => BlockLaidOut(t, a);
    case NewObjectValue(s, version, id) =>
      BlockLaidOut(t, s + [0]);
      var text, b := Block(t, s + [0]), Encode(t, v);
      var n := |text|;
      assert b[..n] == text && b[n..n + 4] == WordBytes(t, version) && b[n + 4..] == WordBytes(t, id);
    case _ =>
  }

  // ---------- reading undoes writing ----------

  /** The bytes `b` stand at position `pos` of the payload. */
  predicate At(m: Message, pos: nat, b: seq<byte>)
  {
    pos + |b| <= |m.payload| && m.payload[pos..pos + |b|] == b
  }

  predicate FdsAt(m: Message, fd: nat, f: seq<Fd>)
  {
    fd + |f| <= |m.fds| && m.fds[fd..fd + |f|] == f
  }

  lemma AtSplit(m: Message, pos: nat, a: seq<byte>, b: seq<byte>)
    requires At(m, pos, a + b)
    ensures At(m, pos, a) && At(m, pos + |a|, b)
  {
    var s := m.payload[pos..pos + |a + b|];
    assert m.payload[pos..pos + |a|] == s[..|a|] == a;
    assert m.payload[pos + |a|..pos + |a| + |b|] == s[|a|..] == b;
  }

  lemma FdsAtSplit(m: Message, fd: nat, a: seq<Fd>, b: seq<Fd>)
    requires FdsAt(m, fd, a + b)
    ensures FdsAt(m, fd, a) && FdsAt(m, fd + |a|, b)
  {
    var s := m.fds[fd..fd + |a + b|];
    assert m.fds[fd..fd + |a|] == s[..|a|] == a;
    assert m.fds[fd + |a|..fd + |a| + |b|] == s[|a|..] == b;
  }

  lemma FdsAtJoin(m: Message, fd: nat, a: seq<Fd>, b: seq<Fd>)
    requires FdsAt(m, fd, a) && FdsAt(m, fd + |a|, b)
    ensures FdsAt(m, fd, a + b)
  {
    var end := fd + |a| + |b|;
    assert m.fds[fd..end] == m.fds[fd..fd + |a|] + m.fds[fd + |a|..end];
  }

  lemma DecodeWordAt(t: Target, m: Message, c: Cursor, w: u32)
    requires At(m, c.pos, WordBytes(t, w))
    ensures DecodeWord(t, m, c) == Got(w, c.(pos := c.pos + 4))
  {
  }

  lemma DecodeBlockAt(t: Target, m: Message, c: Cursor, data: seq<byte>)
    requires |data| < 0x1_0000_0000
    requires At(m, c.pos, Block(t, data))
    ensures DecodeBlock(t, m, c) == Got(data, c.(pos := c.pos + |Block(t, data)|))
  {
    AtSplit(m, c.pos, WordBytes(t, |data|) + data, Zeros(Pad(|data|)));
    AtSplit(m, c.pos, WordBytes(t, |data|), data);
  }

  lemma DecodeStrAt(t: Target, m: Message, c: Cursor, s: seq<byte>)
    requires EncodableText(s)
    requires At(m, c.pos, Block(t, s + [0]))
    ensures DecodeStr(t, m, c) == Got(s, c.(pos := c.pos + |Block(t, s + [0])|))
  {
    DecodeBlockAt(t, m, c, s + [0]);
    FirstNulOfTerminated(s);
    assert (s + [0])[..|s|] == s;
  }

  lemma DecodeNewObjectAt(t: Target, m: Message, c: Cursor, s: seq<byte>, version: u32, o: ObjectId)
    requires EncodableText(s)
    requires At(m, c.pos, Block(t, s + [0]) + WordBytes(t, version) + WordBytes(t, o))
    ensures DecodeNewObject(t, m, c)
         == Got(NewObjectValue(s, version, o), c.(pos := c.pos + |Block(t, s + [0])| + 8))
  {
    var text := Block(t, s + [0]);
    AtSplit(m, c.pos, text + WordBytes(t, version), WordBytes(t, o));
    AtSplit(m, c.pos, text, WordBytes(t, version));
    DecodeStrAt(t, m, c, s);
    var c1 := c.(pos := c.pos + |text|);
    DecodeWordAt(t, m, c1, version);
    DecodeWordAt(t, m, c1.(pos := c1.pos + 4), o);
  }

  lemma DecodeWordFieldAt(t: Target, f: ReadFn, m: Message, c: Cursor, w: u32, v: Value)
    requires WordValue(f, w) == Some(v) && Encodable(v)
    requires At(m, c.pos, WordBytes(t, w))
    ensures Decode(t, f, m, c) == Got(v, c.(pos := c.pos + 4))
  {
  }

  function Next(t: Target, v: Value, c: Cursor): Cursor
    requires Encodable(v)
  {
    Cursor(c.pos + |Encode(t, v)|, c.fd + |FdsOf(v)|)
  }

  /** Reading a field back gives the value that was pushed and moves both cursors just past it. */
  lemma DecodeEncoded(t: Target, f: ReadFn, v: Value, m: Message, c: Cursor)
    requires Encodable(v) && TypeOf(v) == ResultType(f)
    requires At(m, c.pos, Encode(t, v)) && FdsAt(m, c.fd, FdsOf(v))
    ensures Decode(t, f, m, c) == Got(v, Next(t, v, c))
  {
    hide Block, WordBytes, At, DecodeStr, DecodeNewObject, DecodeBlock, DecodeWord;
    match v
    case UintValue(u) => DecodeWordFieldAt(t, f, m, c, u, v);
    case IntValue(i) => DecodeWordFieldAt(t, f, m, c, Unsigned(i), v);
    case FixedValue(i) => DecodeWordFieldAt(t, f, m, c, Unsigned(i), v);
    case StringValue(s) => DecodeStrAt(t, m, c, s);
    case ObjectValue(o) => DecodeWordFieldAt(t, f, m, c, ObjectWord(o), v);
    case NewIdValue(o) => DecodeWordFieldAt(t, f, m, c, o, v);
    case ArrayValue(a) => DecodeBlockAt(t, m, c, a);
    case NewObjectValue(s, version, o) => DecodeNewObjectAt(t, m, c, s, version, o);
    case FdValue(fd) =>
      assert m.fds[c.fd] == m.fds[c.fd..c.fd + 1][0];
  }

  predicate Matches(fs: seq<ReadFn>, vs: seq<Value>)
  {
    |fs| == |vs| && forall i :: 0 <= i < |vs| ==> TypeOf(vs[i]) == ResultType(fs[i])
  }

  lemma DecodeAllStep(t: Target, fs: seq<ReadFn>, m: Message, c: Cursor, v: Value, next: Cursor,
                      rest: seq<Value>, last: Cursor)
    requires fs != [] && Decode(t, fs[0], m, c) == Got(v, next)
    requires DecodeAll(t, fs[1..], m, next) == Got(rest, last)
    ensures DecodeAll(t, fs, m, c) == Got([v] + rest, last)
  {
  }

  /** The values stand, encoded, where both cursors point. */
  predicate Stands(t: Target, vs: seq<Value>, m: Message, c: Cursor)
  {
    AllEncodable(vs) && At(m, c.pos, EncodeAll(t, vs)) && FdsAt(m, c.fd, AllFds(vs))
  }

  function Past(t: Target, vs: seq<Value>, c: Cursor): Cursor
    requires AllEncodable(vs)
  {
    Cursor(c.pos + |EncodeAll(t, vs)|, c.fd + |AllFds(vs)|)
  }

  lemma TailEncodable(vs: seq<Value>)
    requires vs != [] && AllEncodable(vs)
    ensures Encodable(vs[0]) && AllEncodable(vs[1..])
  {
  }

  lemma StandsSplit(t: Target, vs: seq<Value>, m: Message, c: Cursor)
    requires vs != [] && Stands(t, vs, m, c)
    ensures At(m, c.pos, Encode(t, vs[0])) && FdsAt(m, c.fd, FdsOf(vs[0]))
    ensures Stands(t, vs[1..], m, Next(t, vs[0], c))
    ensures Past(t, vs[1..], Next(t, vs[0], c)) == Past(t, vs, c)
  {
    hide Encode, FdsOf, At, FdsAt, AllEncodable;
    assert Encodable(vs[0]) && AllEncodable(vs[1..]) by {
      TailEncodable(vs);
    }
    AtSplit(m, c.pos, Encode(t, vs[0]), EncodeAll(t, vs[1..]));
    FdsAtSplit(m, c.fd, FdsOf(vs[0]), AllFds(vs[1..]));
  }

  lemma {:induction false} DecodeAllEncoded(t: Target, fs: seq<ReadFn>, vs: seq<Value>, m: Message, c: Cursor)
    requires Matches(fs, vs) && Stands(t, vs, m, c)
    ensures DecodeAll(t, fs, m, c) == Got(vs, Past(t, vs, c))
  {
    hide Decode, Encode, FdsOf, At, FdsAt, TypeOf, ResultType, Encodable;
    if vs != [] {
      assert Encodable(vs[0]) && TypeOf(vs[0]) == ResultType(fs[0]);
      StandsSplit(t, vs, m, c);
      DecodeEncoded(t, fs[0], vs[0], m, c);
      var next := Next(t, vs[0], c);
      DecodeAllEncoded(t, fs[1..], vs[1..], m, next);
      DecodeAllStep(t, fs, m, c, vs[0], next, vs[1..], Past(t, vs, c));
      assert vs == [vs[0]] + vs[1..];
    }
  }

  /** The packet that pushing `vs` onto a new packet gives. */
  function Written(t: Target, objectId: ObjectId, opcode: u16, vs: seq<Value>): Message
    requires AllEncodable(vs)
  {
    Message(objectId, opcode, EncodeAll(t, vs), AllFds(vs))
  }

  /** A written packet reads back as the values that went in, and the reader ends at its end. */
  lemma SignatureRoundTrip(t: Target, objectId: ObjectId, opcode: u16, fs: seq<ReadFn>, vs: seq<Value>)
    requires AllEncodable(vs) && Matches(fs, vs)
    ensures var m := Written(t, objectId, opcode, vs);
            var end := Cursor(|m.payload|, |m.fds|);
            DecodeAll(t, fs, m, START) == Got(vs, end) && Finished(m, end)
  {
    var m := Written(t, objectId, opcode, vs);
    assert m.payload[0..|m.payload|] == m.payload;
    assert m.fds[0..|m.fds|] == m.fds;
    DecodeAllEncoded(t, fs, vs, m, START);
  }

  // ---------- writing undoes reading, up to padding ----------

  /** Which bytes of a length-prefixed field of `n` data bytes are padding. */
  function BlockPadding(n: nat): (mask: seq<bool>)
    ensures |mask| == 4 + n + Pad(n)
  {
    seq(4 + n + Pad(n), i => i >= 4 + n)
  }

  function Padding(v: Value): seq<bool>
  {
    match v
    case StringValue(s) => BlockPadding(|s| + 1)
    case NewObjectValue(s, _, _) => BlockPadding(|s| + 1) + seq(8, i => false)
    case ArrayValue(a) => BlockPadding(|a|)
    case FdValue(_) => []
    case UintValue(_) => seq(4, i => false)
    case IntValue(_) => seq(4, i => false)
    case FixedValue(_) => seq(4, i => false)
    case ObjectValue(_) => seq(4, i => false)
    case NewIdValue(_) => seq(4, i => false)
  }

  function AllPadding(vs: seq<Value>): seq<bool>
  {
    if vs == [] then [] else Padding(vs[0]) + AllPadding(vs[1..])
  }

  /** `clean` is `raw` with every padding byte set to zero and every other byte kept. */
  predicate Cleaned(raw: seq<byte>, mask: seq<bool>, clean: seq<byte>)
  {
    |raw| == |mask| == |clean| &&
    forall i :: 0 <= i < |raw| ==> clean[i] == if mask[i] then 0 else raw[i]
  }

  lemma CleanedConcat(raw1: seq<byte>, mask1: seq<bool>, clean1: seq<byte>,
                      raw2: seq<byte>, mask2: seq<bool>, clean2: seq<byte>)
    requires Cleaned(raw1, mask1, clean1) && Cleaned(raw2, mask2, clean2)
    ensures Cleaned(raw1 + raw2, mask1 + mask2, clean1 + clean2)
  {
  }

  /** The part of the payload between two cursors. */
  function Between(m: Message, c: Cursor, d: Cursor): seq<byte>
    requires c.pos <= d.pos <= |m.payload|
  {
    m.payload[c.pos..d.pos]
  }

  lemma BetweenJoin(m: Message, c: Cursor, d: Cursor, e: Cursor)
    requires c.pos <= d.pos <= e.pos <= |m.payload|
    ensures Between(m, c, e) == Between(m, c, d) + Between(m, d, e)
  {
  }

  lemma DecodedWord(t: Target, m: Message, c: Cursor)
    requires DecodeWord(t, m, c).Got?
    ensures var r := DecodeWord(t, m, c);
            && r.next == c.(pos := c.pos + 4)
            && r.next.pos <= |m.payload|
            && Between(m, c, r.next) == WordBytes(t, r.value)
  {
    WordBytesCanonical(t, m.payload[c.pos..c.pos + 4]);
  }

  lemma DecodedBlock(t: Target, m: Message, c: Cursor)
    requires DecodeBlock(t, m, c).Got?
    ensures var r := DecodeBlock(t, m, c);
            && r.next == c.(pos := c.pos + |Block(t, r.value)|)
            && r.next.pos <= |m.payload|
            && Cleaned(Between(m, c, r.next), BlockPadding(|r.value|), Block(t, r.value))
  {
    hide WordBytes, BytesWord;
    var r := DecodeBlock(t, m, c);
    var word, n := m.payload[c.pos..c.pos + 4], |r.value|;
    WordBytesCanonical(t, word);
    assert WordBytes(t, n) == word;
    CleanedBlock(t, word, r.value, m.payload[c.pos + 4 + n..r.next.pos]);
    assert Between(m, c, r.next) == word + r.value + m.payload[c.pos + 4 + n..r.next.pos];
  }

  lemma CleanedBlock(t: Target, word: seq<byte>, data: seq<byte>, padding: seq<byte>)
    requires |data| < 0x1_0000_0000 && word == WordBytes(t, |data|) && |padding| == Pad(|data|)
    ensures Cleaned(word + data + padding, BlockPadding(|data|), Block(t, data))
  {
    hide WordBytes;
    var raw, clean := word + data + padding, Block(t, data);
    forall i | 0 <= i < |raw| ensures clean[i] == if BlockPadding(|data|)[i] then 0 else raw[i] {
    }
  }

  lemma DecodedStr(t: Target, m: Message, c: Cursor)
    requires DecodeStr(t, m, c).Got?
    ensures var r := DecodeStr(t, m, c);
            && EncodableText(r.value)
            && r.next == c.(pos := c.pos + |Block(t, r.value + [0])|)
            && r.next.pos <= |m.payload|
            && Cleaned(Between(m, c, r.next), BlockPadding(|r.value| + 1), Block(t, r.value + [0]))
  {
    hide DecodeBlock, Block, BlockPadding, Between, Cleaned, ValidUtf8;
    DecodedBlock(t, m, c);
    var slice := DecodeBlock(t, m, c).value;
    assert slice == slice[..|slice| - 1] + [0];
  }

  /** Two words in a row, neither of which has padding. */
  lemma DecodedTwoWords(t: Target, m: Message, c: Cursor)
    requires DecodeWord(t, m, c).Got? && DecodeWord(t, m, DecodeWord(t, m, c).next).Got?
    ensures var first := DecodeWord(t, m, c);
            var second := DecodeWord(t, m, first.next);
            var clean := WordBytes(t, first.value) + WordBytes(t, second.value);
            && second.next == c.(pos := c.pos + 8)
            && second.next.pos <= |m.payload|
            && Cleaned(Between(m, c, second.next), seq(8, i => false), clean)
  {
    DecodedWord(t, m, c);
    var d := DecodeWord(t, m, c).next;
    DecodedWord(t, m, d);
    BetweenJoin(m, c, d, DecodeWord(t, m, d).next);
  }

  lemma DecodedNewObject(t: Target, m: Message, c: Cursor)
    requires DecodeNewObject(t, m, c).Got?
    ensures var r := DecodeNewObject(t, m, c);
            && r.value.NewObjectValue? && Encodable(r.value)
            && r.next == c.(pos := c.pos + |Encode(t, r.value)|)
            && r.next.pos <= |m.payload|
            && Cleaned(Between(m, c, r.next), Padding(r.value), Encode(t, r.value))
  {
    DecodedStr(t, m, c);
    var s := DecodeStr(t, m, c);
    DecodedTwoWords(t, m, s.next);
    var r := DecodeNewObject(t, m, c);
    BetweenJoin(m, c, s.next, r.next);
    var text := Block(t, s.value + [0]);
    var words := WordBytes(t, r.value.version) + WordBytes(t, r.value.id);
    CleanedConcat(Between(m, c, s.next), BlockPadding(|s.value| + 1), text,
                  Between(m, s.next, r.next), seq(8, i => false), words);
    assert Encode(t, r.value) == text + words;
  }

  lemma DecodedWordField(t: Target, f: ReadFn, m: Message, c: Cursor)
    requires f in {ReadUint, ReadInt, ReadFixed, ReadObject, ReadNewIdKnownInterface}
    requires Decode(t, f, m, c).Got?
    ensures var r := Decode(t, f, m, c);
            && TypeOf(r.value) == ResultType(f) && Encodable(r.value) && FdsOf(r.value) == []
            && r.next == Next(t, r.value, c) && r.next.pos <= |m.payload|
            && Cleaned(Between(m, c, r.next), Padding(r.value), Encode(t, r.value))
  {
    hide DecodeWord, DecodeStr, DecodeBlock, DecodeNewObject, Between, WordBytes;
    DecodedWord(t, m, c);
  }

  /** What a successful read consumed is the encoding of what it returned, up to padding. */
  lemma DecodedReencodes(t: Target, f: ReadFn, m: Message, c: Cursor)
    requires c.pos <= |m.payload| && c.fd <= |m.fds|
    requires Decode(t, f, m, c).Got?
    ensures var r := Decode(t, f, m, c);
            && TypeOf(r.value) == ResultType(f) && Encodable(r.value)
            && r.next == Next(t, r.value, c) && r.next.pos <= |m.payload|
            && Cleaned(Between(m, c, r.next), Padding(r.value), Encode(t, r.value))
            && FdsAt(m, c.fd, FdsOf(r.value))
  {
    hide DecodeStr, DecodeBlock, DecodeWord, DecodeNewObject;
    match f
    case ReadStr => DecodedStr(t, m, c);
    case ReadArray => DecodedBlock(t, m, c);
    case ReadNewIdUnknownInterface => DecodedNewObject(t, m, c);
    case ReadFd =>
    case _ => DecodedWordField(t, f, m, c);
  }

  /** What lies between two cursors is the encoding of the values, up to padding. */
  predicate Reencoded(t: Target, vs: seq<Value>, m: Message, c: Cursor, d: Cursor)
  {
    && AllEncodable(vs)
    && d == Past(t, vs, c) && d.pos <= |m.payload|
    && Cleaned(Between(m, c, d), AllPadding(vs), EncodeAll(t, vs))
    && FdsAt(m, c.fd, AllFds(vs))
  }

  lemma HeadEncodable(vs: seq<Value>)
    requires vs != [] && Encodable(vs[0]) && AllEncodable(vs[1..])
    ensures AllEncodable(vs)
  {
    forall i | 0 <= i < |vs| ensures Encodable(vs[i]) {
      assert i > 0 ==> vs[i] == vs[1..][i - 1];
    }
  }

  lemma ReencodedJoin(t: Target, vs: seq<Value>, m: Message, c: Cursor, d: Cursor, e: Cursor)
    requires vs != [] && Encodable(vs[0]) && d == Next(t, vs[0], c) && d.pos <= |m.payload|
    requires Cleaned(Between(m, c, d), Padding(vs[0]), Encode(t, vs[0])) && FdsAt(m, c.fd, FdsOf(vs[0]))
    requires Reencoded(t, vs[1..], m, d, e)
    ensures Reencoded(t, vs, m, c, e)
  {
    hide Encode, FdsOf, Padding, Between, Cleaned, FdsAt, AllEncodable;
    HeadEncodable(vs);
    BetweenJoin(m, c, d, e);
    CleanedConcat(Between(m, c, d), Padding(vs[0]), Encode(t, vs[0]),
                  Between(m, d, e), AllPadding(vs[1..]), EncodeAll(t, vs[1..]));
    FdsAtJoin(m, c.fd, FdsOf(vs[0]), AllFds(vs[1..]));
  }

  lemma {:induction false} DecodedAllReencode(t: Target, fs: seq<ReadFn>, m: Message, c: Cursor)
    requires c.pos <= |m.payload| && c.fd <= |m.fds|
    requires DecodeAll(t, fs, m, c).Got?
    ensures var r := DecodeAll(t, fs, m, c); Matches(fs, r.value) && Reencoded(t, r.value, m, c, r.next)
  {
    if fs != [] {
      hide Decode, Encode, FdsOf, Padding, Between, Cleaned, Reencoded;
      DecodedReencodes(t, fs[0], m, c);
      var first := Decode(t, fs[0], m, c);
      DecodedAllReencode(t, fs[1..], m, first.next);
      var rest := DecodeAll(t, fs[1..], m, first.next);
      var vs := DecodeAll(t, fs, m, c).value;
      assert vs[0] == first.value && vs[1..] == rest.value;
      ReencodedJoin(t, vs, m, c, first.next, rest.next);
    }
  }

  /** If an arbitrary packet decodes against a signature and nothing is left over, then pushing the
      decoded values is possible, gives the same descriptors and the same payload but for the padding
      bytes, which become zero, and decodes to the same values again. */
  lemma CanonicalForm(t: Target, fs: seq<ReadFn>, m: Message)
    requires DecodeAll(t, fs, m, START).Got? && Finished(m, DecodeAll(t, fs, m, START).next)
    ensures var vs := DecodeAll(t, fs, m, START).value;
            && AllEncodable(vs)
            && var again := Written(t, m.objectId, m.opcode, vs);
            && Cleaned(m.payload, AllPadding(vs), again.payload)
            && again.fds == m.fds
            && DecodeAll(t, fs, again, START).Got?
            && DecodeAll(t, fs, again, START).value == vs
  {
    DecodedAllReencode(t, fs, m, START);
    var r := DecodeAll(t, fs, m, START);
    assert Between(m, START, r.next) == m.payload;
    assert m.fds[0..|m.fds|] == m.fds;
    SignatureRoundTrip(t, m.objectId, m.opcode, fs, r.value);
  }

  // ---------- reader safety on arbitrary bytes ----------

  /** Both cursors stand inside the packet and the payload cursor on a field boundary. */
  predicate Inside(m: Message, c: Cursor)
  {
    c.pos <= |m.payload| && c.pos % 4 == 0 && c.fd <= |m.fds|
  }

  lemma BlockInside(t: Target, m: Message, c: Cursor)
    requires Inside(m, c)
    ensures Inside(m, DecodeBlock(t, m, c).next)
    ensures c.pos <= DecodeBlock(t, m, c).next.pos && c.fd == DecodeBlock(t, m, c).next.fd
  {
    var r := DecodeBlock(t, m, c);
    if r.Got? {
      AlignedSum(c.pos + 4, |r.value| + Pad(|r.value|));
    }
  }

  lemma WordInside(t: Target, m: Message, c: Cursor)
    requires Inside(m, c)
    ensures Inside(m, DecodeWord(t, m, c).next)
    ensures c.pos <= DecodeWord(t, m, c).next.pos && c.fd == DecodeWord(t, m, c).next.fd
  {
    AlignedSum(c.pos, 4);
  }

  lemma StrInside(t: Target, m: Message, c: Cursor)
    requires Inside(m, c)
    ensures var next := DecodeStr(t, m, c).next; Inside(m, next) && c.pos <= next.pos && c.fd == next.fd
  {
    hide Inside;
    BlockInside(t, m, c);
  }

  lemma NewObjectInside(t: Target, m: Message, c: Cursor)
    requires Inside(m, c)
    ensures var next := DecodeNewObject(t, m, c).next; Inside(m, next) && c.pos <= next.pos && c.fd <= next.fd
  {
    hide Inside, DecodeStr;
    StrInside(t, m, c);
    var s := DecodeStr(t, m, c);
    WordInside(t, m, s.next);
    WordInside(t, m, DecodeWord(t, m, s.next).next);
  }

  /** One read on arbitrary bytes: the cursors never go back and never leave the packet. */
  lemma ReadInside(t: Target, f: ReadFn, m: Message, c: Cursor)
    requires Inside(m, c)
    ensures var next := Decode(t, f, m, c).next; Inside(m, next) && c.pos <= next.pos && c.fd <= next.fd
  {
    hide DecodeStr, DecodeBlock, DecodeWord, DecodeNewObject;
    WordInside(t, m, c);
    match f
    case ReadStr => StrInside(t, m, c);
    case ReadArray => BlockInside(t, m, c);
    case ReadNewIdUnknownInterface => NewObjectInside(t, m, c);
    case _ =>
  }

  /** A read that runs out of bytes or descriptors moves no cursor, except that the composite
      `read_new_id_unknown_interface` keeps what its earlier parts consumed. */
  lemma BoundsFailureMovesNothing(t: Target, f: ReadFn, m: Message, c: Cursor)
    requires f != ReadNewIdUnknownInterface
    requires var r := Decode(t, f, m, c); r.Failed? && (r.error.FieldOutOfBounds? || r.error.FdOutOfBounds?)
    ensures Decode(t, f, m, c).next == c
  {
  }

  /** A text field is accepted if and only if its bytes are NUL-free UTF-8 and one NUL after them; a rejection gives
      the first NUL and the place it should have, or the bytes before it. */
  lemma TextExact(t: Target, slice: seq<byte>, c: Cursor)
    requires slice != []
    ensures var r, last := CheckText(t, slice, c), |slice| - 1;
            && r.next == c && !r.Panicked?
            && (r.Got? <==> slice[last] == 0 && NulFree(slice[..last]) && ValidUtf8(slice[..last]))
            && (r.Got? ==> r.value == slice[..last])
            && (r.Failed? ==>
                  match r.error
                  case StringMisplacedNul(None, expected) => NulFree(slice) && expected == last
                  case StringMisplacedNul(Some(found), expected) =>
                    found < last == expected && slice[found] == 0 && NulFree(slice[..found])
                  case StringInvalidUtf8(data) => data == slice[..last] && slice[last] == 0 && NulFree(data)
                  case _ => false)
  {
    if slice[|slice| - 1] == 0 && NulFree(slice[..|slice| - 1]) {
      FirstNulOfTerminated(slice[..|slice| - 1]);
      assert slice == slice[..|slice| - 1] + [0];
    }
  }

  /** Where a field that is read here would end: after one word, and, if that is a length, after as many bytes and
      their padding. */
  function EndOfField(t: Target, f: ReadFn, m: Message, c: Cursor): nat
  {
    if (f == ReadStr || f == ReadArray) && c.pos + 4 <= |m.payload|
    then c.pos + 4 + (BytesWord(t, m.payload[c.pos..c.pos + 4]) + 3) / 4 * 4
    else c.pos + 4
  }

  lemma PaddedLength(n: nat)
    ensures n + Pad(n) == (n + 3) / 4 * 4
  {
  }

  lemma BlockFailureSays(t: Target, f: ReadFn, m: Message, c: Cursor)
    requires DecodeBlock(t, m, c).Failed? && (f == ReadStr || f == ReadArray)
    ensures DecodeBlock(t, m, c).error == FieldOutOfBounds(EndOfField(t, f, m, c), |m.payload|)
    ensures EndOfField(t, f, m, c) > |m.payload|
  {
    if c.pos + 4 <= |m.payload| {
      PaddedLength(BytesWord(t, m.payload[c.pos..c.pos + 4]));
    }
  }

  /** What an error says about the packet and the read that failed, and where that leaves the cursor. */
  predicate Explained(t: Target, f: ReadFn, m: Message, c: Cursor, e: Error, next: Cursor)
  {
    match e
    case FieldOutOfBounds(actual, maximum) =>
      && f != ReadFd && maximum == |m.payload| < actual
      && (f != ReadNewIdUnknownInterface ==> actual == EndOfField(t, f, m, c))
    case FdOutOfBounds(total) => f == ReadFd && total == |m.fds| <= c.fd
    case ZeroObjectId =>
      && (f == ReadNewIdKnownInterface || f == ReadNewIdUnknownInterface)
      && 4 <= next.pos <= |m.payload| && BytesWord(t, m.payload[next.pos - 4..next.pos]) == 0
    case StringMisplacedNul(_, _) => f == ReadStr || f == ReadNewIdUnknownInterface
    case StringInvalidUtf8(_) => f == ReadStr || f == ReadNewIdUnknownInterface
    case _ => false
  }

  lemma TextFailureSays(t: Target, f: ReadFn, m: Message, c: Cursor)
    requires DecodeStr(t, m, c).Failed? && (f == ReadStr || f == ReadNewIdUnknownInterface)
    ensures Explained(t, f, m, c, DecodeStr(t, m, c).error, DecodeStr(t, m, c).next)
  {
    hide ValidUtf8, FirstNul, DecodeBlock, EndOfField;
    if DecodeBlock(t, m, c).Failed? {
      BlockFailureSays(t, ReadStr, m, c);
    }
  }

  lemma NewObjectFailureSays(t: Target, m: Message, c: Cursor)
    requires DecodeNewObject(t, m, c).Failed?
    ensures Explained(t, ReadNewIdUnknownInterface, m, c, DecodeNewObject(t, m, c).error,
                      DecodeNewObject(t, m, c).next)
  {
    hide DecodeStr, DecodeWord;
    var text := DecodeStr(t, m, c);
    if text.Failed? {
      TextFailureSays(t, ReadNewIdUnknownInterface, m, c);
    } else {
      var version := DecodeWord(t, m, text.next);
      WordFailureSays(t, m, text.next);
      if version.Got? {
        WordFailureSays(t, m, version.next);
      }
    }
  }

  lemma WordFailureSays(t: Target, m: Message, c: Cursor)
    ensures match DecodeWord(t, m, c)
            case Got(w, next) =>
              4 <= next.pos <= |m.payload| && BytesWord(t, m.payload[next.pos - 4..next.pos]) == w
            case Failed(e, _) => e.FieldOutOfBounds? && e.maximum == |m.payload| < e.actual
            case Panicked(_) => false
  {
  }

  /** Every error says what is wrong: an end beyond the payload, too few descriptors, a word that is zero where an
      object must be named, or text that is not well formed. */
  lemma FailureSays(t: Target, f: ReadFn, m: Message, c: Cursor)
    requires Decode(t, f, m, c).Failed?
    ensures Explained(t, f, m, c, Decode(t, f, m, c).error, Decode(t, f, m, c).next)
  {
    hide DecodeStr, DecodeNewObject, DecodeBlock;
    match f
    case ReadStr => TextFailureSays(t, f, m, c);
    case ReadArray => BlockFailureSays(t, f, m, c);
    case ReadNewIdUnknownInterface => NewObjectFailureSays(t, m, c);
    case _ =>
  }

  /** A string that is in bounds but badly formed is skipped: the cursor ends past its padding. */
  lemma ContentFailureSkipsField(t: Target, m: Message, c: Cursor)
    requires DecodeBlock(t, m, c).Got? && !DecodeStr(t, m, c).Got?
    ensures DecodeStr(t, m, c).next == DecodeBlock(t, m, c).next
    ensures DecodeStr(t, m, c).next.pos > c.pos
  {
  }

  /** `read_str` panics exactly on a declared length of zero, and only where overflow is checked. */
  lemma StringPanic(t: Target, m: Message, c: Cursor)
    ensures DecodeStr(t, m, c).Panicked? <==>
            && t.overflowChecks
            && c.pos + 4 <= |m.payload|
            && BytesWord(t, m.payload[c.pos..c.pos + 4]) == 0
  {
    if c.pos + 4 <= |m.payload| && BytesWord(t, m.payload[c.pos..c.pos + 4]) == 0 {
      assert Pad(0) == 0;
    }
  }

  /** Keep calling a reader whatever its earlier calls returned, as a caller is free to do; a panic ends it. */
  function Drive(t: Target, fs: seq<ReadFn>, m: Message, c: Cursor): Cursor
  {
    if fs == [] then c
    else
      var r := Decode(t, fs[0], m, c);
      if r.Panicked? then r.next else Drive(t, fs[1..], m, r.next)
  }

  /** After any sequence of reads of any packet, whatever the packet's bytes are, the cursors are inside
      it, and `finish` accepts exactly when both stand at the end. */
  lemma {:induction false} ReaderSafety(t: Target, fs: seq<ReadFn>, m: Message, c: Cursor)
    requires Inside(m, c)
    ensures var d := Drive(t, fs, m, c);
            && Inside(m, d)
            && (Finished(m, d) <==> d == Cursor(|m.payload|, |m.fds|))
            && var e := IncompleteError(m, d);
               && e.IncompleteRead? && e.readBytes == d.pos && e.totalBytes == |m.payload|
               && e.readFds == d.fd && e.totalFds == |m.fds|
               && (!Finished(m, d) ==> e.readBytes < e.totalBytes || e.readFds < e.totalFds)
  {
    if fs != [] {
      ReadInside(t, fs[0], m, c);
      var r := Decode(t, fs[0], m, c);
      if !r.Panicked? {
        ReaderSafety(t, fs[1..], m, r.next);
      }
    }
  }

  /** The zero-length string that `read_str` mishandles: four zero bytes. */
  lemma EmptyStringWitness(t: Target)
    ensures var m := Message(DISPLAY, 0, [0, 0, 0, 0], []);
            Decode(t, ReadStr, m, START) ==
              if t.overflowChecks then Panicked(Cursor(4, 0))
              else Failed(StringMisplacedNul(None, 18446744073709551615), Cursor(4, 0))
  {
    var m := Message(DISPLAY, 0, [0, 0, 0, 0], []);
    assert m.payload[0..4] == [0, 0, 0, 0];
    assert Digits(0, 1) == [0];
    assert Digits(0, 2) == [0, 0];
    assert Digits(0, 4) == [0, 0, 0, 0];
    assert Flip([0, 0, 0, 0]) == [0, 0, 0, 0];
    assert WordBytes(t, 0) == [0, 0, 0, 0];
    assert Pad(0) == 0;
  }
}
