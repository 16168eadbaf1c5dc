/**
 Exactly which ways of cutting up a stream `read_packet` copes with (src/proto/packet.rs): for frames of any size,
 those that end no read inside a length prefix after its second byte.
 */
module Cuts {
  import opened Base
  import opened Packet
  import VarInt

  /** Whether a read ends `n` bytes into a stream of which the first `have` bytes are buffered. */
  predicate CutAt(n: int, have: int, chunks: seq<seq<Byte>>)
    decreases |chunks|
  {
    n == have || (chunks != [] && CutAt(n, have + |chunks[0]|, chunks[1..]))
  }

  /** A cut inside the length prefix of a frame that starts `from` bytes into the stream, after two bytes of it. */
  ghost predicate Splits(body: seq<Byte>, from: int, have: int, chunks: seq<seq<Byte>>) {
    exists n :: from + 2 <= n < from + |VarInt.Encode(AsI32(|body|))| && CutAt(n, have, chunks)
  }

  function FramedAll(bodies: seq<seq<Byte>>): seq<Byte> {
    if bodies == [] then [] else Framed(bodies[0]) + FramedAll(bodies[1..])
  }

  /** How many frames from the front have no such cut, of those that start `from` bytes into the stream. */
  ghost function Whole(bodies: seq<seq<Byte>>, from: int, have: int, chunks: seq<seq<Byte>>): (k: nat)
    ensures k <= |bodies|
  {
    if bodies == [] || Splits(bodies[0], from, have, chunks) then 0
    else 1 + Whole(bodies[1..], from + |Framed(bodies[0])|, have, chunks)
  }

  predicate Sizes(bodies: seq<seq<Byte>>) {
    forall b :: b in bodies ==> 1 <= |b| < 0x8000_0000
  }

  // ----- cuts -----

  lemma {:induction false} CutsComeLater(n: int, have: int, chunks: seq<seq<Byte>>)
    ensures CutAt(n, have, chunks) ==> n >= have
    decreases |chunks|
  {
    if chunks != [] {
      CutsComeLater(n, have + |chunks[0]|, chunks[1..]);
    }
  }

  lemma {:induction false} CutsShift(n: int, d: int, have: int, chunks: seq<seq<Byte>>)
    ensures CutAt(n, have, chunks) <==> CutAt(n - d, have - d, chunks)
    decreases |chunks|
  {
    if chunks != [] {
      CutsShift(n, d, have + |chunks[0]|, chunks[1..]);
    }
  }

  /** Filling the buffer up to `m` bytes uses up only cuts before that. */
  lemma {:induction false} FeedKeepsCuts(m: nat, buf: seq<Byte>, chunks: seq<seq<Byte>>, n: int)
    requires n >= m
    ensures var r := Feed(m, buf, chunks); CutAt(n, |buf|, chunks) <==> CutAt(n, |r.buf|, r.chunks)
    decreases |chunks|
  {
    if |buf| < m && chunks != [] {
      FeedKeepsCuts(m, buf + chunks[0], chunks[1..], n);
    }
  }

  /** The cut at which the buffer first holds two bytes tells whether the prefix is split. */
  lemma SplitsIff(body: seq<Byte>, buf: seq<Byte>, chunks: seq<seq<Byte>>)
    requires |body| < 0x8000_0000
    ensures Splits(body, 0, |buf|, chunks) <==> 2 <= |Feed(2, buf, chunks).buf| < |VarInt.Encode(|body|)|
  {
    hide Feed, VarInt.Encode;
    var n, r := |VarInt.Encode(|body|)|, Feed(2, buf, chunks);
    if 2 <= |r.buf| < n {
      FeedKeepsCuts(2, buf, chunks, |r.buf|);
    } else {
      forall m | 2 <= m < n ensures !CutAt(m, |buf|, chunks) {
        FeedKeepsCuts(2, buf, chunks, m);
        CutsComeLater(m, |r.buf|, r.chunks);
      }
    }
  }

  /** The condition of a single read, put in terms of where the stream is cut. */
  lemma ReadyIffUnsplit(body: seq<Byte>, rest: seq<Byte>, buf: seq<Byte>, chunks: seq<seq<Byte>>)
    requires 1 <= |body| < 0x8000_0000
    requires Pending(buf, chunks) == Framed(body) + rest
    ensures PrefixReady(body, buf, chunks) <==> !Splits(body, 0, |buf|, chunks)
  {
    hide Feed, Splits;
    var r := Feed(2, buf, chunks);
    SplitsIff(body, buf, chunks);
    FeedConserves(2, buf, chunks);
    FramedSplits(body, rest);
    assert |Pending(r.buf, r.chunks)| >= 2;
  }

  /** Removing a frame leaves the cuts behind it where they were. */
  lemma ReadKeepsCuts(z: Zlib, t: I32, body: seq<Byte>, rest: seq<Byte>,
                      buf: seq<Byte>, chunks: seq<seq<Byte>>, ending: Ending, n: int)
    requires 1 <= |body| < 0x8000_0000
    requires Pending(buf, chunks) == Framed(body) + rest
    requires PrefixReady(body, buf, chunks)
    requires n >= |Framed(body)|
    ensures var r := ReadStep(z, t, buf, chunks, ending);
            CutAt(n, |buf|, chunks) <==> CutAt(n - |Framed(body)|, |r.buf|, r.chunks)
  {
    hide Feed, DecodeFrame, VarInt.Parse, VarInt.Encode, Pending, CutAt;
    var need := |Framed(body)|;
    var Fed(b1, c1) := Feed(2, buf, chunks);
    FeedConserves(2, buf, chunks);
    FramedSplits(body, rest);
    EnoughWasFed(2, Framed(body), rest, Fed(b1, c1));
    StartShowsLength(body, rest, b1, c1);
    var fed := Feed(need, b1, c1);
    FeedConserves(need, b1, c1);
    EnoughWasFed(need, Framed(body), rest, fed);
    FeedKeepsCuts(2, buf, chunks, n);
    FeedKeepsCuts(need, b1, c1, n);
    CutsShift(n, need, |fed.buf|, fed.chunks);
  }

  /** Two views of one stream, `d` bytes apart, that agree on every cut from `base` on. */
  ghost predicate SameCuts(base: int, d: int, have: int, chunks: seq<seq<Byte>>, have': int, chunks': seq<seq<Byte>>) {
    forall n :: n >= base ==> (CutAt(n, have, chunks) <==> CutAt(n - d, have', chunks'))
  }

  lemma SameSplits(body: seq<Byte>, from: int, base: int, d: int,
                   have: int, chunks: seq<seq<Byte>>, have': int, chunks': seq<seq<Byte>>)
    requires SameCuts(base, d, have, chunks, have', chunks') && from >= base
    ensures Splits(body, from, have, chunks) <==> Splits(body, from - d, have', chunks')
  {
    hide CutAt;
    if Splits(body, from - d, have', chunks') {
      var n :| from - d + 2 <= n < from - d + |VarInt.Encode(AsI32(|body|))| && CutAt(n, have', chunks');
      assert CutAt(n + d, have, chunks) <==> CutAt(n + d - d, have', chunks');
    }
  }

  lemma {:induction false} SameWhole(bodies: seq<seq<Byte>>, from: int, base: int, d: int,
                                     have: int, chunks: seq<seq<Byte>>, have': int, chunks': seq<seq<Byte>>)
    requires SameCuts(base, d, have, chunks, have', chunks') && from >= base
    ensures Whole(bodies, from, have, chunks) == Whole(bodies, from - d, have', chunks')
    decreases |bodies|
  {
    hide SameCuts, Splits, Framed;
    if bodies != [] {
      SameSplits(bodies[0], from, base, d, have, chunks, have', chunks');
      SameWhole(bodies[1..], from + |Framed(bodies[0])|, base, d, have, chunks, have', chunks');
    }
  }

  /** One read, with what it leaves of the condition. */
  lemma ReadsFirstFrame(z: Zlib, t: I32, bodies: seq<seq<Byte>>, rest: seq<Byte>,
                        buf: seq<Byte>, chunks: seq<seq<Byte>>, ending: Ending)
    requires bodies != [] && Sizes(bodies)
    requires Pending(buf, chunks) == Framed(bodies[0]) + rest
    ensures var r, k := ReadStep(z, t, buf, chunks, ending), Whole(bodies, 0, |buf|, chunks);
            if k == 0 then
              r.outcome == Failed && r.taken == [] && ReadStep(z, t, r.buf, r.chunks, ending) == r
            else
              && r.taken == Framed(bodies[0]) && Pending(r.buf, r.chunks) == rest
              && r.outcome == Decoded(DecodeBody(z, t, bodies[0]), Framed(bodies[0]))
              && k == 1 + Whole(bodies[1..], 0, |r.buf|, r.chunks)
  {
    hide ReadStep, Pending, DecodeBody, PrefixReady, Splits, CutAt, Framed;
    var body := bodies[0];
    assert 1 <= |body| < 0x8000_0000;
    ReadyIffUnsplit(body, rest, buf, chunks);
    if PrefixReady(body, buf, chunks) {
      ReadsOneFrame(z, t, body, rest, buf, chunks, ending);
      var r, d := ReadStep(z, t, buf, chunks, ending), |Framed(body)|;
      forall n | n >= d ensures CutAt(n, |buf|, chunks) <==> CutAt(n - d, |r.buf|, r.chunks) {
        ReadKeepsCuts(z, t, body, rest, buf, chunks, ending, n);
      }
      SameWhole(bodies[1..], d, d, d, |buf|, chunks, |r.buf|, r.chunks);
    } else {
      FrameReadIff(z, t, body, rest, buf, chunks, ending);
    }
  }

  // ----- a stream that ends inside a frame -----

  /**
   Exactly how a call ends when the stream ends inside a frame, of whose bytes only those before `rest` arrive. If a
   read ended inside the length prefix after its second byte, the stream's own end included, it is an error. Otherwise
   everything is read, nothing is removed, and the call reports how the socket ended: an error if reading failed, no
   packet if it was closed or reset. Either error repeats.
   */
  lemma ReadsCutOff(z: Zlib, t: I32, body: seq<Byte>, rest: seq<Byte>,
                    buf: seq<Byte>, chunks: seq<seq<Byte>>, ending: Ending)
    requires 1 <= |body| < 0x8000_0000
    requires rest != [] && Pending(buf, chunks) + rest == Framed(body)
    ensures var r := ReadStep(z, t, buf, chunks, ending);
            && r.taken == []
            && (Splits(body, 0, |buf|, chunks) ==> r.outcome == Failed)
            && (!Splits(body, 0, |buf|, chunks) ==>
                  && r.outcome == (if ending == Broken then Failed else Closed)
                  && r.buf == Pending(buf, chunks) && r.chunks == [])
            && (r.outcome == Failed ==> ReadStep(z, t, r.buf, r.chunks, ending) == r)
  {
    hide Feed, CutFrame, VarInt.Parse, VarInt.Encode, CutAt;
    var n := |VarInt.Encode(|body|)|;
    var b := Feed(2, buf, chunks);
    FeedConserves(2, buf, chunks);
    FramedSplits(body, []);
    SplitsIff(body, buf, chunks);
    if |b.buf| >= 2 {
      if |b.buf| < n {
        Associate(b.buf, Flat(b.chunks), rest);
        assert Framed(body) + [] == Framed(body);
        PartMalformed(body, [], b.buf, Flat(b.chunks) + rest);
        FeedStops(2, b.buf, b.chunks);
      } else {
        FeedStops(2, b.buf, b.chunks);
        CutOffRunsDry(z, t, body, rest, b.buf, b.chunks, ending);
        NoMore(Pending(buf, chunks));
        CutOffRunsDry(z, t, body, rest, Pending(buf, chunks), [], ending);
      }
    } else {
      DryIsEmpty(b.buf, b.chunks);
      FeedDry(2, b.buf);
    }
  }

  lemma FeedDry(m: nat, buf: seq<Byte>)
    ensures Feed(m, buf, []) == Fed(buf, [])
  {
  }

  lemma FeedStops(m: nat, buf: seq<Byte>, chunks: seq<seq<Byte>>)
    requires |buf| >= m
    ensures Feed(m, buf, chunks) == Fed(buf, chunks)
  {
  }

  lemma NoMore(buf: seq<Byte>)
    ensures Pending(buf, []) == buf
  {
  }

  lemma DryIsEmpty(buf: seq<Byte>, chunks: seq<seq<Byte>>)
    ensures chunks == [] ==> Pending(buf, chunks) == buf
  {
  }

  lemma CutOffRunsDry(z: Zlib, t: I32, body: seq<Byte>, rest: seq<Byte>,
                      buf: seq<Byte>, chunks: seq<seq<Byte>>, ending: Ending)
    requires 1 <= |body| < 0x8000_0000
    requires rest != [] && Pending(buf, chunks) + rest == Framed(body)
    requires |buf| >= |VarInt.Encode(|body|)| && |buf| >= 2
    ensures ReadStep(z, t, buf, chunks, ending)
         == Reading(if ending == Broken then Failed else Closed, [], Pending(buf, chunks), [])
  {
    hide VarInt.Parse, VarInt.Encode, Feed;
    var need := |Framed(body)|;
    FeedStops(2, buf, chunks);
    FeedConserves(need, buf, chunks);
    var fed := Feed(need, buf, chunks);
    assert |Pending(fed.buf, fed.chunks)| < need;
    DryIsEmpty(fed.buf, fed.chunks);
    StartsWithLength(body, rest, buf, chunks);
  }

  lemma StartsWithLength(body: seq<Byte>, rest: seq<Byte>, buf: seq<Byte>, chunks: seq<seq<Byte>>)
    requires 1 <= |body| < 0x8000_0000
    requires Pending(buf, chunks) + rest == Framed(body)
    requires |buf| >= |VarInt.Encode(|body|)|
    ensures VarInt.Parse(buf) == VarInt.Read(|VarInt.Encode(|body|)|, |body|)
    ensures FrameEnd(|VarInt.Encode(|body|)|, |body|) == |Framed(body)|
  {
    hide VarInt.Parse, VarInt.Encode;
    var n := |VarInt.Encode(|body|)|;
    FramedSplits(body, []);
    assert Framed(body) + [] == Framed(body);
    assert buf[..n] == Framed(body)[..n];
    VarInt.Locality(Framed(body), buf);
  }

  // ----- any number of reads -----

  function Times<T>(x: T, n: nat): seq<T> {
    seq(n, _ => x)
  }

  /** What reading whole frames gives: each with the packet its body decodes to, or with an error. */
  function ReadAs(z: Zlib, t: I32, bodies: seq<seq<Byte>>): seq<Outcome> {
    if bodies == [] then []
    else [Decoded(DecodeBody(z, t, bodies[0]), Framed(bodies[0]))] + ReadAs(z, t, bodies[1..])
  }

  function FramesOf(bodies: seq<seq<Byte>>): (r: seq<seq<Byte>>)
    ensures |r| == |bodies|
  {
    if bodies == [] then [] else [Framed(bodies[0])] + FramesOf(bodies[1..])
  }

  /** The reader that is stuck: call after call fails, removes nothing and reads nothing more. */
  lemma {:induction false} StuckForGood(z: Zlib, t: I32, buf: seq<Byte>, chunks: seq<seq<Byte>>, ending: Ending, n: nat)
    requires ReadStep(z, t, buf, chunks, ending) == Reading(Failed, [], buf, chunks)
    ensures ReadMany(z, t, buf, chunks, ending, n) == Session(Times(Failed, n), Times([], n), buf, chunks)
    decreases n
  {
    hide ReadStep;
    if n > 0 {
      StuckForGood(z, t, buf, chunks, ending, n - 1);
      assert Times(Failed, n) == [Failed] + Times(Failed, n - 1);
      assert Times<seq<Byte>>([], n) == [[]] + Times([], n - 1);
    }
  }

  /** What a session gives of which the first `k` frames are whole. */
  ghost predicate ReadsFirst(z: Zlib, t: I32, bodies: seq<seq<Byte>>, rest: seq<Byte>, k: nat, s: Session)
    requires k <= |bodies|
  {
    && s.outcomes == ReadAs(z, t, bodies[..k]) + Times(Failed, |bodies| - k)
    && s.taken == FramesOf(bodies[..k]) + Times([], |bodies| - k)
    && Pending(s.buf, s.chunks) == FramedAll(bodies[k..]) + rest
  }

  /**
   For frames of any size, cut in any way: as many calls as there are frames remove exactly the `k` frames in front
   of the first one whose length prefix is cut after its second byte, each with its packet or its decoding error;
   every call after that fails and removes nothing.
   */
  lemma {:induction false} ReadsWholeFrames(z: Zlib, t: I32, bodies: seq<seq<Byte>>, rest: seq<Byte>,
                                            buf: seq<Byte>, chunks: seq<seq<Byte>>, ending: Ending)
    requires Sizes(bodies) && Pending(buf, chunks) == FramedAll(bodies) + rest
    ensures ReadsFirst(z, t, bodies, rest, Whole(bodies, 0, |buf|, chunks),
                       ReadMany(z, t, buf, chunks, ending, |bodies|))
    decreases |bodies|
  {
    hide ReadStep, Pending, Decoded, Framed, Splits, Times, ReadsFirst;
    if bodies == [] {
      NothingToRead(z, t, rest, Session([], [], buf, chunks));
    } else {
      var r, k, more := ReadStep(z, t, buf, chunks, ending), Whole(bodies, 0, |buf|, chunks), bodies[1..];
      Associate(Framed(bodies[0]), FramedAll(more), rest);
      ReadsFirstFrame(z, t, bodies, FramedAll(more) + rest, buf, chunks, ending);
      if k == 0 {
        ReadConserves(z, t, buf, chunks, ending);
        StuckForGood(z, t, r.buf, r.chunks, ending, |more|);
        StuckAtOnce(z, t, bodies, rest, r.buf, r.chunks);
      } else {
        ReadsWholeFrames(z, t, more, rest, r.buf, r.chunks, ending);
        ReadsOneMore(z, t, bodies, rest, k, r, ReadMany(z, t, r.buf, r.chunks, ending, |more|));
      }
    }
  }

  lemma NothingToRead(z: Zlib, t: I32, rest: seq<Byte>, s: Session)
    requires s.outcomes == [] && s.taken == [] && Pending(s.buf, s.chunks) == FramedAll([]) + rest
    ensures ReadsFirst(z, t, [], rest, 0, s)
  {
  }

  lemma StuckAtOnce(z: Zlib, t: I32, bodies: seq<seq<Byte>>, rest: seq<Byte>, buf: seq<Byte>, chunks: seq<seq<Byte>>)
    requires bodies != [] && Pending(buf, chunks) == FramedAll(bodies) + rest
    ensures var n := |bodies| - 1;
            ReadsFirst(z, t, bodies, rest, 0, Session([Failed] + Times(Failed, n), [[]] + Times([], n), buf, chunks))
  {
    hide Pending, FramedAll, Times, DecodeBody, Framed;
    var n := |bodies| - 1;
    TimesCons(Failed, n);
    TimesCons<seq<Byte>>([], n);
    assert bodies[..0] == [] && bodies[0..] == bodies;
    Neutral(Times(Failed, n + 1));
    Neutral(Times<seq<Byte>>([], n + 1));
  }

  lemma Neutral<T>(s: seq<T>)
    ensures [] + s == s
  {
  }

  lemma TimesCons<T>(x: T, n: nat)
    ensures Times(x, n + 1) == [x] + Times(x, n)
  {
  }

  lemma ReadsOneMore(z: Zlib, t: I32, bodies: seq<seq<Byte>>, rest: seq<Byte>, k: nat, r: Reading, s: Session)
    requires 0 < k <= |bodies| && r.taken == Framed(bodies[0])
    requires r.outcome == Decoded(DecodeBody(z, t, bodies[0]), Framed(bodies[0]))
    requires ReadsFirst(z, t, bodies[1..], rest, k - 1, s)
    ensures ReadsFirst(z, t, bodies, rest, k, Session([r.outcome] + s.outcomes, [r.taken] + s.taken, s.buf, s.chunks))
  {
    hide Pending, Decoded, DecodeBody, Framed, Times, FramedAll;
    var more, left := bodies[1..], |bodies| - k;
    assert bodies[k..] == more[k - 1..];
    ConsReads(z, t, bodies, k);
    Associate([r.outcome], ReadAs(z, t, more[..k - 1]), Times(Failed, left));
    Associate([r.taken], FramesOf(more[..k - 1]), Times([], left));
  }

  lemma ConsReads(z: Zlib, t: I32, bodies: seq<seq<Byte>>, k: nat)
    requires 0 < k <= |bodies|
    ensures ReadAs(z, t, bodies[..k])
         == [Decoded(DecodeBody(z, t, bodies[0]), Framed(bodies[0]))] + ReadAs(z, t, bodies[1..][..k - 1])
    ensures FramesOf(bodies[..k]) == [Framed(bodies[0])] + FramesOf(bodies[1..][..k - 1])
  {
    assert bodies[..k][1..] == bodies[1..][..k - 1] && bodies[..k][0] == bodies[0];
  }

  // ----- exactly when everything is read -----

  /** Where in its stream a frame starts. */
  function Start(bodies: seq<seq<Byte>>, i: nat): nat
    requires i <= |bodies|
  {
    |FramedAll(bodies[..i])|
  }

  /** No read ends inside a length prefix after its second byte. */
  ghost predicate Uncut(bodies: seq<seq<Byte>>, from: int, have: int, chunks: seq<seq<Byte>>) {
    forall i :: 0 <= i < |bodies| ==> !Splits(bodies[i], from + Start(bodies, i), have, chunks)
  }

  lemma StartsLater(bodies: seq<seq<Byte>>, i: nat)
    requires i < |bodies|
    ensures Start(bodies, 0) == 0
    ensures Start(bodies, i + 1) == |Framed(bodies[0])| + Start(bodies[1..], i)
  {
    assert bodies[..i + 1][1..] == bodies[1..][..i] && bodies[..i + 1][0] == bodies[0];
  }

  lemma UncutCons(bodies: seq<seq<Byte>>, from: int, have: int, chunks: seq<seq<Byte>>)
    requires bodies != []
    ensures Uncut(bodies, from, have, chunks) <==>
              !Splits(bodies[0], from, have, chunks)
              && Uncut(bodies[1..], from + |Framed(bodies[0])|, have, chunks)
  {
    hide Splits, Framed, Start;
    var more, d := bodies[1..], |Framed(bodies[0])|;
    StartsLater(bodies, 0);
    forall i | 0 <= i < |more| ensures more[i] == bodies[i + 1] && d + Start(more, i) == Start(bodies, i + 1) {
      StartsLater(bodies, i);
    }
    if !Splits(bodies[0], from, have, chunks) && Uncut(more, from + d, have, chunks) {
      forall i | 0 <= i < |bodies| ensures !Splits(bodies[i], from + Start(bodies, i), have, chunks) {
        if i > 0 {
          assert !Splits(more[i - 1], from + d + Start(more, i - 1), have, chunks);
        }
      }
    }
    if Uncut(bodies, from, have, chunks) {
      assert !Splits(bodies[0], from + Start(bodies, 0), have, chunks);
      forall i | 0 <= i < |more| ensures !Splits(more[i], from + d + Start(more, i), have, chunks) {
        assert !Splits(bodies[i + 1], from + Start(bodies, i + 1), have, chunks);
      }
    }
  }

  lemma {:induction false} WholeIffUncut(bodies: seq<seq<Byte>>, from: int, have: int, chunks: seq<seq<Byte>>)
    ensures Whole(bodies, from, have, chunks) == |bodies| <==> Uncut(bodies, from, have, chunks)
    decreases |bodies|
  {
    hide Splits, Framed, Start;
    if bodies != [] {
      hide Uncut;
      UncutCons(bodies, from, have, chunks);
      WholeIffUncut(bodies[1..], from + |Framed(bodies[0])|, have, chunks);
    }
  }

  lemma SmallIsUnsplit(body: seq<Byte>, from: int, have: int, chunks: seq<seq<Byte>>)
    requires SmallBody(body)
    ensures !Splits(body, from, have, chunks)
  {
    hide CutAt;
    VarInt.EncodeSize(|body|);
  }

  /** Small frames have length prefixes of at most two bytes, which no cut splits. */
  lemma {:induction false} SmallIsWhole(bodies: seq<seq<Byte>>, from: int, have: int, chunks: seq<seq<Byte>>)
    requires forall b :: b in bodies ==> SmallBody(b)
    ensures Sizes(bodies) && Whole(bodies, from, have, chunks) == |bodies| && Uncut(bodies, from, have, chunks)
    decreases |bodies|
  {
    hide Splits, Uncut, Framed;
    WholeIffUncut(bodies, from, have, chunks);
    if bodies != [] {
      SmallIsUnsplit(bodies[0], from, have, chunks);
      SmallIsWhole(bodies[1..], from + |Framed(bodies[0])|, have, chunks);
    }
  }

  /** Exactly when a sequence of frames of any size is read whole: iff it is cut nowhere it must not be. */
  lemma FramesReadIffUncut(z: Zlib, t: I32, bodies: seq<seq<Byte>>, rest: seq<Byte>,
                           buf: seq<Byte>, chunks: seq<seq<Byte>>, ending: Ending)
    requires Sizes(bodies) && Pending(buf, chunks) == FramedAll(bodies) + rest
    ensures ReadMany(z, t, buf, chunks, ending, |bodies|).taken == FramesOf(bodies) <==> Uncut(bodies, 0, |buf|, chunks)
  {
    hide ReadMany, Pending, FramedAll, Uncut, Framed, Times;
    var k := Whole(bodies, 0, |buf|, chunks);
    ReadsWholeFrames(z, t, bodies, rest, buf, chunks, ending);
    WholeIffUncut(bodies, 0, |buf|, chunks);
    NoTimes();
    if k == |bodies| {
      assert bodies[..k] == bodies;
      assert FramesOf(bodies) + [] == FramesOf(bodies);
    } else {
      TimesAt<seq<Byte>>([], |bodies| - k);
      FrameAt(bodies, k);
    }
  }

  lemma NoTimes()
    ensures Times<Outcome>(Failed, 0) == [] && Times<seq<Byte>>([], 0) == []
  {
  }

  lemma TimesAt<T>(x: T, n: nat)
    requires n > 0
    ensures |Times(x, n)| == n && Times(x, n)[0] == x
  {
  }

  lemma {:induction false} FrameAt(bodies: seq<seq<Byte>>, k: nat)
    requires k < |bodies|
    ensures FramesOf(bodies)[k] == Framed(bodies[k]) != []
    decreases k
  {
    hide VarInt.Encode;
    if k > 0 {
      FrameAt(bodies[1..], k - 1);
    } else {
      VarInt.RoundTrip(AsI32(|bodies[0]|), []);
    }
  }

  // ----- packets -----

  function Bodies(z: Zlib, t: I32, ps: seq<RawPacket>): (r: seq<seq<Byte>>)
    ensures |r| == |ps|
  {
    if ps == [] then [] else [Body(z, t, ps[0])] + Bodies(z, t, ps[1..])
  }

  lemma {:induction false} BodiesOfFrames(z: Zlib, t: I32, t': I32, ps: seq<RawPacket>)
    requires z.Lawful() && (t >= 0 <==> t' >= 0)
    requires forall p :: p in ps ==> Fits(z, t, p)
    ensures Sizes(Bodies(z, t, ps))
    ensures FramedAll(Bodies(z, t, ps)) == Frames(z, t, ps)
    ensures ReadAs(z, t', Bodies(z, t, ps)) == Deliveries(z, t, ps)
    decreases |ps|
  {
    hide DecodeBody, Body, Framed, Plain;
    if ps != [] {
      BodiesOfFrames(z, t, t', ps[1..]);
      BodyIsThere(z, t, ps[0]);
      BodyRoundTrip(z, t, t', ps[0]);
      FirstDelivery(z, t, ps);
    }
  }

  lemma BodyIsThere(z: Zlib, t: I32, p: RawPacket)
    requires Fits(z, t, p)
    ensures 1 <= |Body(z, t, p)| < 0x8000_0000
  {
    hide VarInt.Encode;
    VarInt.RoundTrip(p.id, []);
    VarInt.RoundTrip(AsI32(|Plain(p)|), []);
    VarInt.RoundTrip(0, []);
  }

  lemma FirstDelivery(z: Zlib, t: I32, ps: seq<RawPacket>)
    requires ps != []
    ensures Deliveries(z, t, ps) == [Packet(ps[0], Frame(z, t, ps[0]))] + Deliveries(z, t, ps[1..])
  {
    hide Frame;
  }

  lemma {:induction false} ManyThenOne(z: Zlib, t: I32, buf: seq<Byte>, chunks: seq<seq<Byte>>, ending: Ending, n: nat)
    ensures var s, s' := ReadMany(z, t, buf, chunks, ending, n), ReadMany(z, t, buf, chunks, ending, n + 1);
            s'.outcomes == s.outcomes + [ReadStep(z, t, s.buf, s.chunks, ending).outcome]
    decreases n
  {
    hide ReadStep;
    if n > 0 {
      var r := ReadStep(z, t, buf, chunks, ending);
      ManyThenOne(z, t, r.buf, r.chunks, ending, n - 1);
    }
  }

  /**
   Chunking independence and its exact boundary: whatever the packets and however their frames were cut into reads,
   the calls return exactly those packets, each with its raw frame, and then the end, iff no read ended inside a
   length prefix after its second byte.
   */
  lemma ChunkingIndependenceIff(z: Zlib, t: I32, t': I32, ps: seq<RawPacket>,
                                buf: seq<Byte>, chunks: seq<seq<Byte>>, ending: Ending)
    requires z.Lawful() && (t >= 0 <==> t' >= 0)
    requires forall p :: p in ps ==> Fits(z, t, p)
    requires Pending(buf, chunks) == Frames(z, t, ps)
    ensures ReadMany(z, t', buf, chunks, ending, |ps| + 1).outcomes == Deliveries(z, t, ps) + [AtEnd(ending)] <==>
              Uncut(Bodies(z, t, ps), 0, |buf|, chunks)
  {
    hide ReadMany, Pending, FramedAll, Frames, Deliveries, Uncut, ReadAs, Fits;
    var bodies := Bodies(z, t, ps);
    BodiesOfFrames(z, t, t', ps);
    assert FramedAll(bodies) + [] == FramedAll(bodies);
    DeliversOnlyPackets(z, t, ps);
    EndsIffUncut(z, t', bodies, buf, chunks, ending);
  }

  lemma EndsIffUncut(z: Zlib, t: I32, bodies: seq<seq<Byte>>, buf: seq<Byte>, chunks: seq<seq<Byte>>, ending: Ending)
    requires Sizes(bodies) && Pending(buf, chunks) == FramedAll(bodies) + []
    requires Failed !in ReadAs(z, t, bodies)
    ensures ReadMany(z, t, buf, chunks, ending, |bodies| + 1).outcomes == ReadAs(z, t, bodies) + [AtEnd(ending)] <==>
              Uncut(bodies, 0, |buf|, chunks)
  {
    hide ReadStep, ReadMany, Pending, FramedAll, Uncut, Whole, Sizes, ReadsFirst, AtEnd, ReadAs;
    var s, k := ReadMany(z, t, buf, chunks, ending, |bodies|), Whole(bodies, 0, |buf|, chunks);
    ReadsWholeFrames(z, t, bodies, [], buf, chunks, ending);
    WholeIffUncut(bodies, 0, |buf|, chunks);
    ManyThenOne(z, t, buf, chunks, ending, |bodies|);
    ReadAsLength(z, t, bodies);
    var last := ReadStep(z, t, s.buf, s.chunks, ending).outcome;
    if k == |bodies| {
      AllDelivered(z, t, bodies, s, ending);
    } else {
      FailsAt(z, t, bodies, k, s);
    }
    SameEnd(s.outcomes, ReadAs(z, t, bodies), last, AtEnd(ending), k);
  }

  lemma SameEnd<T>(a: seq<T>, b: seq<T>, x: T, y: T, k: nat)
    requires |a| == |b| && (if k == |a| then a == b && x == y else k < |a| && a[k] != b[k])
    ensures a + [x] == b + [y] <==> k == |a|
  {
    if k < |a| {
      assert (a + [x])[k] == a[k] && (b + [y])[k] == b[k];
    }
  }

  lemma AllDelivered(z: Zlib, t: I32, bodies: seq<seq<Byte>>, s: Session, ending: Ending)
    requires ReadsFirst(z, t, bodies, [], |bodies|, s)
    ensures |s.outcomes| == |bodies| && s.outcomes == ReadAs(z, t, bodies)
    ensures ReadStep(z, t, s.buf, s.chunks, ending).outcome == AtEnd(ending)
  {
    hide ReadStep, Pending, ReadAs, Times;
    ReadAsLength(z, t, bodies);
    NoTimes();
    assert bodies[..|bodies|] == bodies && bodies[|bodies|..] == [];
    assert ReadAs(z, t, bodies) + [] == ReadAs(z, t, bodies);
    ReadsTheEnd(z, t, s.buf, s.chunks, ending);
  }

  lemma FailsAt(z: Zlib, t: I32, bodies: seq<seq<Byte>>, k: nat, s: Session)
    requires k < |bodies| && ReadsFirst(z, t, bodies, [], k, s)
    ensures |s.outcomes| == |bodies| && s.outcomes[k] == Failed
  {
    hide Pending, Times;
    TimesAt(Failed, |bodies| - k);
    ReadAsLength(z, t, bodies[..k]);
  }

  lemma {:induction false} ReadAsLength(z: Zlib, t: I32, bodies: seq<seq<Byte>>)
    ensures |ReadAs(z, t, bodies)| == |bodies|
  {
    if bodies != [] {
      ReadAsLength(z, t, bodies[1..]);
    }
  }

  lemma DeliversOnlyPackets(z: Zlib, t: I32, ps: seq<RawPacket>)
    ensures Failed !in Deliveries(z, t, ps)
  {
  }
}
