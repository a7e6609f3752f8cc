/**
 * The wire framing between a node and the engine: one byte of kind, two of length, the
 * payload. Sockets move bytes in pieces of any size.
 */
module Wire {
  import opened Bytes

  const MAX_PAYLOAD: nat := 0xFFFF

  datatype Message = Message(kind: byte, payload: seq<byte>)

  /** The bytes of a message. The length field holds the low sixteen bits of the length. */
  function Encode(m: Message): seq<byte> {
    Header(m) + m.payload
  }

  function Header(m: Message): (h: seq<byte>)
    ensures |h| == 3
  {
    var n := |m.payload|;
    [m.kind, n / 256 % 256, n % 256]
  }

  function EncodeAll(ms: seq<Message>): seq<byte> {
    if ms == [] then [] else Encode(ms[0]) + EncodeAll(ms[1..])
  }

  datatype Parsed = Complete(m: Message, rest: seq<byte>) | Incomplete

  /** The first message of a stream, if all of it is there. */
  function DecodeOne(s: seq<byte>): (p: Parsed)
    ensures p.Complete? ==> |p.rest| + 3 <= |s|
  {
    if |s| < 3 || |s| < 3 + Word(s[1], s[2]) then Incomplete
    else
      var n := Word(s[1], s[2]);
      Complete(Message(s[0], s[3..3 + n]), s[3 + n..])
  }

  /** The messages of a stream up to its end or to one that is cut short, and what is left over. */
  function DecodeAll(s: seq<byte>): (seq<Message>, seq<byte>)
    decreases |s|
  {
    match DecodeOne(s)
    case Incomplete => ([], s)
    case Complete(m, rest) => var (ms, left) := DecodeAll(rest); ([m] + ms, left)
  }

  /** Kind, upper and lower byte of the length, payload, in this order. */
  lemma OnTheWire(m: Message)
    requires |m.payload| <= 65535
    ensures var s := Encode(m);
            |s| == 3 + |m.payload| && s[0] == m.kind && 256 * (s[1] as nat) + s[2] == |m.payload| && s[3..] == m.payload
  {
    WordOf(|m.payload|);
  }

  /** What comes out for the first message, whatever follows it: the message itself if its length fits
      the length field, a truncated one otherwise. */
  lemma FirstDecoded(m: Message, more: seq<byte>)
    ensures var p, n := DecodeOne(Encode(m) + more), |m.payload| % 0x1_0000;
            && p == Complete(Message(m.kind, m.payload[..n]), m.payload[n..] + more)
  {
    WordOf(|m.payload|);
    hide Word, DecodeOne, Encode;
    DecodedUpTo(m, more, |m.payload| % 0x1_0000);
  }

  lemma DecodedUpTo(m: Message, more: seq<byte>, k: nat)
    requires k == Word(Header(m)[1], Header(m)[2]) && k <= |m.payload|
    ensures DecodeOne(Encode(m) + more) == Complete(Message(m.kind, m.payload[..k]), m.payload[k..] + more)
  {
    var s := Encode(m) + more;
    assert s[0] == m.kind && s[1] == Header(m)[1] && s[2] == Header(m)[2];
    hide Word, Header;
    assert s[3..3 + k] == m.payload[..k];
    assert s[3 + k..] == m.payload[k..] + more;
  }

  predicate Fits(ms: seq<Message>) {
    forall k :: 0 <= k < |ms| ==> |ms[k].payload| <= MAX_PAYLOAD
  }

  predicate AllOfKind(ms: seq<Message>, kind: byte) {
    forall k :: 0 <= k < |ms| ==> ms[k].kind == kind
  }

  lemma FitsCons(ms: seq<Message>)
    requires ms != []
    ensures Fits(ms) <==> |ms[0].payload| <= MAX_PAYLOAD && Fits(ms[1..])
  {
    if Fits(ms[1..]) {
      assert forall k :: 1 <= k < |ms| ==> ms[k] == ms[1..][k - 1];
    }
  }

  /** A reader recovers exactly the messages that were written, and stops exactly where they end, if and
      only if every payload fits the length field. */
  lemma {:induction false} RoundTripIff(ms: seq<Message>)
    ensures DecodeAll(EncodeAll(ms)) == (ms, []) <==> Fits(ms)
    ensures DecodeAll(EncodeAll(ms)).0 == ms <==> Fits(ms)
    decreases |ms|
  {
    hide Encode, DecodeOne, DecodeAll, Fits;
    if ms == [] {
      NoMessages();
    } else {
      FitsCons(ms);
      RoundTripIff(ms[1..]);
      if |ms[0].payload| <= MAX_PAYLOAD {
        FirstFits(ms);
      } else {
        FirstTruncated(ms);
      }
    }
  }

  lemma NoMessages()
    ensures DecodeAll(EncodeAll([])) == ([], []) && Fits([])
  {
  }

  lemma FirstFits(ms: seq<Message>)
    requires ms != [] && |ms[0].payload| <= MAX_PAYLOAD
    ensures DecodeAll(EncodeAll(ms)) == (ms, []) <==> DecodeAll(EncodeAll(ms[1..])) == (ms[1..], [])
    ensures DecodeAll(EncodeAll(ms)).0 == ms <==> DecodeAll(EncodeAll(ms[1..])).0 == ms[1..]
  {
    hide Encode, DecodeOne, DecodeAll;
    var m, more := ms[0], EncodeAll(ms[1..]);
    FirstDecoded(m, more);
    assert m.payload[|m.payload|..] + more == more && m.payload[..|m.payload|] == m.payload;
    var (got, left) := DecodeAll(more);
    DecodeNext(Encode(m) + more, m, more);
    assert ([m] + got)[1..] == got && ms == [m] + ms[1..];
  }

  lemma DecodeNext(s: seq<byte>, m: Message, more: seq<byte>)
    requires DecodeOne(s) == Complete(m, more)
    ensures DecodeAll(s) == ([m] + DecodeAll(more).0, DecodeAll(more).1)
  {
    hide DecodeOne;
  }

  lemma FirstTruncated(ms: seq<Message>)
    requires ms != [] && |ms[0].payload| > MAX_PAYLOAD
    ensures DecodeAll(EncodeAll(ms)).0 != ms
  {
    var m, more := ms[0], EncodeAll(ms[1..]);
    FirstDecoded(m, more);
    hide Encode, DecodeOne, DecodeAll;
    var n := |m.payload| % 0x1_0000;
    var got := Message(m.kind, m.payload[..n]);
    DecodeNext(Encode(m) + more, got, m.payload[n..] + more);
    assert |got.payload| < |m.payload|;
  }

  /** A stream that breaks off gives the first messages of the whole stream, and no others. */
  lemma {:induction false} BrokenOff(s: seq<byte>, more: seq<byte>)
    ensures DecodeAll(s).0 <= DecodeAll(s + more).0
    decreases |s|
  {
    hide DecodeAll;
    match DecodeOne(s)
    case Incomplete =>
      NothingComplete(s);
    case Complete(m, rest) =>
      hide DecodeOne;
      DecodeLonger(s, more);
      DecodeNext(s, m, rest);
      DecodeNext(s + more, m, rest + more);
      BrokenOff(rest, more);
  }

  lemma NothingComplete(s: seq<byte>)
    requires DecodeOne(s).Incomplete?
    ensures DecodeAll(s).0 == []
  {
  }

  lemma DecodeLonger(s: seq<byte>, more: seq<byte>)
    requires DecodeOne(s).Complete?
    ensures DecodeOne(s + more) == Complete(DecodeOne(s).m, DecodeOne(s).rest + more)
  {
    var t, n := s + more, Word(s[1], s[2]);
    hide Word;
    assert t[0] == s[0] && t[1] == s[1] && t[2] == s[2];
    assert t[3..3 + n] == s[3..3 + n] && t[3 + n..] == s[3 + n..] + more;
  }

  /** Some proper part of all that was to be written has gone out. */
  ghost predicate CutShort(before: seq<byte>, after: seq<byte>, all: seq<byte>) {
    exists k :: 0 <= k < |all| && after == before + all[..k]
  }

  lemma HeaderCut(before: seq<byte>, after: seq<byte>, m: Message)
    requires CutShort(before, after, Header(m))
    ensures CutShort(before, after, Encode(m))
  {
    var k :| 0 <= k < 3 && after == before + Header(m)[..k];
    hide Header;
    assert Encode(m)[..k] == Header(m)[..k];
  }

  lemma PayloadCut(before: seq<byte>, after: seq<byte>, m: Message)
    requires CutShort(before + Header(m), after, m.payload)
    ensures CutShort(before, after, Encode(m))
  {
    hide Header;
    var k :| 0 <= k < |m.payload| && after == before + Header(m) + m.payload[..k];
    assert Encode(m)[..3 + k] == Header(m) + m.payload[..k];
  }

  lemma MessageCut(before: seq<byte>, after: seq<byte>, ms: seq<Message>, i: nat)
    requires i < |ms| && CutShort(before + EncodeAll(ms[..i]), after, Encode(ms[i]))
    ensures CutShort(before, after, EncodeAll(ms))
  {
    hide EncodeAll, Encode, CutShort;
    EncodeSplit(ms, i);
    CutInside(before, after, EncodeAll(ms[..i]), Encode(ms[i]), EncodeAll(ms[i + 1..]));
  }

  lemma CutInside(before: seq<byte>, after: seq<byte>, a: seq<byte>, b: seq<byte>, c: seq<byte>)
    requires CutShort(before + a, after, b)
    ensures CutShort(before, after, a + b + c)
  {
    var k :| 0 <= k < |b| && after == before + a + b[..k];
    assert (a + b + c)[..|a| + k] == a + b[..k];
    assert before + (a + b[..k]) == before + a + b[..k];
  }

  lemma EncodeSplit(ms: seq<Message>, i: nat)
    requires i < |ms|
    ensures EncodeAll(ms) == EncodeAll(ms[..i]) + Encode(ms[i]) + EncodeAll(ms[i + 1..])
  {
    hide Encode;
    EncodeConcat(ms[..i], ms[i..]);
    assert ms[..i] + ms[i..] == ms && ms[i..][1..] == ms[i + 1..];
  }

  lemma {:induction false} EncodeConcat(a: seq<Message>, b: seq<Message>)
    ensures EncodeAll(a + b) == EncodeAll(a) + EncodeAll(b)
    decreases |a|
  {
    hide Encode;
    if a == [] {
      assert a + b == b;
    } else {
      assert (a + b)[1..] == a[1..] + b;
      EncodeConcat(a[1..], b);
    }
  }

  lemma EncodeNext(ms: seq<Message>, i: nat)
    requires i < |ms|
    ensures EncodeAll(ms[..i + 1]) == EncodeAll(ms[..i]) + Encode(ms[i])
  {
    hide Encode;
    EncodeConcat(ms[..i], [ms[i]]);
    assert ms[..i + 1] == ms[..i] + [ms[i]];
    assert [ms[i]][1..] == [] && EncodeAll([]) == [];
  }

  /** Bytes still to be read, and bytes written. A read gives some of what was asked for, nothing only at
      the end of the stream; a write takes some of what it is given; and which of them fail is for the network
      to say: any of them may. */
  class Socket {
    var incoming: seq<byte>
    var outgoing: seq<byte>
    var readCount: nat
    var writeCount: nat
    const readFails: nat -> bool
    const writeFails: nat -> bool

    constructor (bytes: seq<byte>, readFails: nat -> bool, writeFails: nat -> bool)
      ensures incoming == bytes && outgoing == [] && readCount == writeCount == 0
      ensures this.readFails == readFails && this.writeFails == writeFails
    {
      incoming, outgoing := bytes, [];
      readCount, writeCount := 0, 0;
      this.readFails, this.writeFails := readFails, writeFails;
    }

    /** None of the reads from number a up to b fails. */
    ghost predicate ReadsWell(a: nat, b: nat) {
      forall k: nat :: a <= k < b ==> !readFails(k)
    }

    ghost predicate WritesWell(a: nat, b: nat) {
      forall k: nat :: a <= k < b ==> !writeFails(k)
    }

    method SockRead(buf: array<byte>, at: nat, n: nat) returns (got: int)
      requires 0 < n && at + n <= buf.Length
      modifies this`incoming, this`readCount, buf
      ensures -1 <= got <= n && got <= |old(incoming)| && (got == 0 ==> old(incoming) == [])
      ensures readCount == old(readCount) + 1 && (got < 0 <==> readFails(old(readCount)))
      ensures incoming == old(incoming)[Max(0, got)..]
      ensures forall k :: 0 <= k < buf.Length ==>
                buf[k] == if at <= k < at + got then old(incoming)[k - at] else old(buf[k])
    {
      readCount := readCount + 1;
      if readFails(readCount - 1) {
        return -1;
      }
      got :| 0 <= got <= n && got <= |incoming| && (got == 0 ==> incoming == []);
      forall k | 0 <= k < got {
        buf[at + k] := incoming[k];
      }
      incoming := incoming[got..];
    }

    method SockWrite(data: seq<byte>) returns (put: int)
      requires data != []
      modifies this`outgoing, this`writeCount
      ensures -1 <= put <= |data|
      ensures writeCount == old(writeCount) + 1 && (put <= 0 <==> writeFails(old(writeCount)))
      ensures outgoing == old(outgoing) + data[..Max(0, put)]
    {
      writeCount := writeCount + 1;
      if writeFails(writeCount - 1) {
        put :| -1 <= put <= 0;
      } else {
        put :| 1 <= put <= |data|;
        outgoing := outgoing + data[..put];
      }
    }

    /** Fill the first n bytes of a buffer, however many reads it takes. It succeeds if and only if as many bytes are to
        come and no read fails; if not, some proper part of them has been taken. */
    method ReadAll(buf: array<byte>, n: nat) returns (ok: bool)
      requires n <= buf.Length
      modifies this`incoming, this`readCount, buf
      ensures readCount >= old(readCount)
      ensures ok <==> n <= |old(incoming)| && ReadsWell(old(readCount), readCount)
      ensures ok ==> buf[..n] == old(incoming)[..n] && incoming == old(incoming)[n..]
      ensures !ok ==> exists k :: 0 <= k < n && k <= |old(incoming)| && incoming == old(incoming)[k..]
    {
      var p, left := 0, n;
      while left > 0
        invariant 0 <= p <= n && p + left == n && p <= |old(incoming)|
        invariant readCount >= old(readCount) && ReadsWell(old(readCount), readCount)
        invariant incoming == old(incoming)[p..] && buf[..p] == old(incoming)[..p]
      {
        var got := SockRead(buf, p, left);
        if got <= 0 {
          return false;
        }
        assert old(incoming)[p..][got..] == old(incoming)[p + got..];
        assert buf[..p + got] == old(incoming)[..p + got];
        p := p + got;
        left := left - got;
      }
      return true;
    }

    /** Write all of data, however many writes it takes. It succeeds if and only if no write fails; if not, some
        proper part of the data has gone out. */
    method WriteAll(data: seq<byte>) returns (ok: bool)
      modifies this`outgoing, this`writeCount
      ensures writeCount >= old(writeCount) && (ok <==> WritesWell(old(writeCount), writeCount))
      ensures if ok then outgoing == old(outgoing) + data else CutShort(old(outgoing), outgoing, data)
    {
      var p := 0;
      while p < |data|
        invariant p <= |data| && outgoing == old(outgoing) + data[..p]
        invariant writeCount >= old(writeCount) && WritesWell(old(writeCount), writeCount)
      {
        var put := SockWrite(data[p..]);
        if put <= 0 {
          assert outgoing == old(outgoing) + data[..p];
          return false;
        }
        assert data[..p] + data[p..][..put] == data[..p + put];
        p := p + put;
      }
      return true;
    }

    /** The radio server's writer: header and payload may both go out in pieces. */
    method WriteMsg(m: Message) returns (ok: bool)
      modifies this`outgoing, this`writeCount
      ensures writeCount >= old(writeCount) && (ok <==> WritesWell(old(writeCount), writeCount))
      ensures if ok then outgoing == old(outgoing) + Encode(m) else CutShort(old(outgoing), outgoing, Encode(m))
    {
      hide CutShort, Header;
      ok := WriteAll(Header(m));
      if !ok {
        HeaderCut(old(outgoing), outgoing, m);
        return;
      }
      if |m.payload| == 0 {
        return;
      }
      ok := WriteAll(m.payload);
      if !ok {
        PayloadCut(old(outgoing), outgoing, m);
      }
    }

    /** The bridge's writer: the header must go out in one write, the payload may not. It fails on a failed write and
        on a header that goes out in part. */
    method WriteMsgOnce(m: Message) returns (ok: bool)
      modifies this`outgoing, this`writeCount
      ensures writeCount >= old(writeCount) && (ok ==> WritesWell(old(writeCount), writeCount))
      ensures if ok then outgoing == old(outgoing) + Encode(m) else CutShort(old(outgoing), outgoing, Encode(m))
      ensures !ok && WritesWell(old(writeCount), writeCount) ==> |outgoing| - |old(outgoing)| in {1, 2}
    {
      hide Header;
      var put := SockWrite(Header(m));
      if put != 3 {
        assert CutShort(old(outgoing), outgoing, Header(m));
        HeaderCut(old(outgoing), outgoing, m);
        return false;
      }
      hide CutShort;
      assert Header(m)[..3] == Header(m);
      ok := WriteAll(m.payload);
      if !ok {
        PayloadCut(old(outgoing), outgoing, m);
      }
    }

    /** Any messages, by either writer, until one fails: all of them are on the stream, or it breaks off. */
    method WriteMsgs(ms: seq<Message>, inOne: bool) returns (ok: bool)
      modifies this`outgoing, this`writeCount
      ensures writeCount >= old(writeCount) && (ok ==> WritesWell(old(writeCount), writeCount))
      ensures !inOne ==> (ok <==> WritesWell(old(writeCount), writeCount))
      ensures if ok then outgoing == old(outgoing) + EncodeAll(ms) else CutShort(old(outgoing), outgoing, EncodeAll(ms))
    {
      hide CutShort, Encode, EncodeAll;
      assert EncodeAll(ms[..0]) == [] by {
        NoBytes(ms[..0]);
      }
      for i := 0 to |ms|
        invariant writeCount >= old(writeCount) && WritesWell(old(writeCount), writeCount)
        invariant outgoing == old(outgoing) + EncodeAll(ms[..i])
      {
        EncodeNext(ms, i);
        if inOne {
          ok := WriteMsgOnce(ms[i]);
        } else {
          ok := WriteMsg(ms[i]);
        }
        if !ok {
          MessageCut(old(outgoing), outgoing, ms, i);
          return;
        }
        assert old(outgoing) + EncodeAll(ms[..i]) + Encode(ms[i]) == old(outgoing) + EncodeAll(ms[..i + 1]);
      }
      assert ms[..|ms|] == ms;
      return true;
    }

    /** The reader of both programs: three bytes of header, then as many as they announce. */
    method ReadMsg() returns (ok: bool, m: Message)
      modifies this`incoming, this`readCount
      ensures readCount >= old(readCount)
      ensures ok <==> DecodeOne(old(incoming)).Complete? && ReadsWell(old(readCount), readCount)
      ensures ok ==> DecodeOne(old(incoming)) == Complete(m, incoming)
    {
      m := Message(0, []);
      ghost var s := incoming;
      var kind, n;
      ok, kind, n := ReadHeader();
      if !ok {
        return;
      }
      hide Word;
      var payload;
      ok, payload := ReadPayload(n);
      m := Message(kind, payload);
      assert |s[3..]| >= n ==> s[3..][..n] == s[3..3 + n] && s[3..][n..] == s[3 + n..];
    }

    method ReadHeader() returns (ok: bool, kind: byte, n: nat)
      modifies this`incoming, this`readCount
      ensures readCount >= old(readCount)
      ensures ok <==> |old(incoming)| >= 3 && ReadsWell(old(readCount), readCount)
      ensures ok ==> kind == old(incoming)[0] && n == Word(old(incoming)[1], old(incoming)[2])
      ensures ok ==> incoming == old(incoming)[3..]
    {
      ghost var s := incoming;
      var hdr := new byte[3](_ => 0);
      ok := ReadAll(hdr, 3);
      kind, n := hdr[0], Word(hdr[1], hdr[2]);
      hide Word;
      assert hdr[..3] == [hdr[0], hdr[1], hdr[2]];
      assert ok ==> s[..3] == [s[0], s[1], s[2]];
    }

    method ReadPayload(n: nat) returns (ok: bool, payload: seq<byte>)
      modifies this`incoming, this`readCount
      ensures readCount >= old(readCount)
      ensures ok <==> |old(incoming)| >= n && ReadsWell(old(readCount), readCount)
      ensures ok ==> payload == old(incoming)[..n] && incoming == old(incoming)[n..]
    {
      var buf := new byte[n](_ => 0);
      ok := ReadAll(buf, n);
      payload := buf[..];
      assert buf[..] == buf[..n];
    }

    /** The message loop of both programs: message after message until one cannot be read. What it reads are the first
        messages of the stream, and all of them if no read fails. */
    method ReadMsgs() returns (ms: seq<Message>)
      modifies this`incoming, this`readCount
      ensures readCount >= old(readCount) && ms <= DecodeAll(old(incoming)).0
      ensures ReadsWell(old(readCount), readCount) ==> ms == DecodeAll(old(incoming)).0
    {
      hide DecodeOne, DecodeAll;
      ms := [];
      ghost var s := incoming;
      var ok := true;
      while ok
        invariant readCount >= old(readCount)
        invariant ok ==> ReadsWell(old(readCount), readCount) && DecodeAll(s).0 == ms + DecodeAll(incoming).0
        invariant !ok ==> ms <= DecodeAll(s).0 && (ReadsWell(old(readCount), readCount) ==> ms == DecodeAll(s).0)
        decreases ok, |incoming|
      {
        ghost var left := incoming;
        var m;
        ok, m := ReadMsg();
        if ok {
          DecodeNext(left, m, incoming);
          ms := ms + [m];
        } else if ReadsWell(old(readCount), readCount) {
          NothingComplete(left);
        }
      }
    }
  }

  lemma NoBytes(ms: seq<Message>)
    ensures ms == [] ==> EncodeAll(ms) == []
  {
  }

  /** The round trip over real sockets: messages written in pieces of any size by either writer and read in pieces of
      any size, on a network that may fail at any read and any write. Of messages that fit, those that arrive are the
      first of those that were to be sent, whatever fails and wherever. Where all was sent and no read fails, all
      of them arrive if and only if they fit; and where no write fails, all is sent, at least by the writer that
      lets its header go out in pieces. */
  method Exchange(ms: seq<Message>, inOne: bool, readFails: nat -> bool, writeFails: nat -> bool)
    returns (sent: bool, got: seq<Message>)
    ensures Fits(ms) ==> got <= ms
    ensures sent && (forall k :: !readFails(k)) ==> (got == ms <==> Fits(ms))
    ensures !inOne && (forall k :: !writeFails(k)) ==> sent
  {
    hide CutShort, EncodeAll, DecodeAll, Fits;
    var sender := new Socket([], readFails, writeFails);
    sent := sender.WriteMsgs(ms, inOne);
    var receiver := new Socket(sender.outgoing, readFails, writeFails);
    got := receiver.ReadMsgs();
    RoundTripIff(ms);
    if sent {
      assert [] + EncodeAll(ms) == EncodeAll(ms);
    } else {
      CutIsPrefix(sender.outgoing, ms);
    }
  }

  lemma CutIsPrefix(s: seq<byte>, ms: seq<Message>)
    requires CutShort([], s, EncodeAll(ms))
    ensures DecodeAll(s).0 <= DecodeAll(EncodeAll(ms)).0
  {
    hide EncodeAll, DecodeAll;
    var all := EncodeAll(ms);
    var k :| 0 <= k < |all| && s == [] + all[..k];
    assert s + all[k..] == all;
    BrokenOff(s, all[k..]);
  }
}
