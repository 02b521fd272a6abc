/** The deadline-paced writer of internal/audio/wav.go, against a clock that only
    moves forward, timers that never fire early, and a sender that writes to the
    ring whenever it likes. */
module Pacer {
  import opened Words
  import opened Rings

  const SAMPLE_RATE := 44100
  const CHANNELS := 2
  const SECOND := 1_000_000_000

  /** 700 ms: see Window for what it has to cover. */
  const RESERVE_FRAMES := SAMPLE_RATE * 7 / 10

  // ---- what was sent -------------------------------------------------------------

  /** One chunk of the main loop: when it was due, when it was taken from the ring
      and handed to the connection, when that returned, and when the loop looked
      whether it was late; the samples; and of the samples ever written to the ring,
      where the oldest one buffered stood when it was taken, how many there were
      by then, and how many of the chunk are real. */
  datatype Chunk = Chunk(due: int, at: int, done: int, seen: int, pcm: seq<int16>,
                         from: nat, supplied: nat, got: nat)

  /** What the ring held when the chunk was taken, and after. */
  function Level(c: Chunk): int { c.supplied - c.from }

  function Left(c: Chunk): int { Level(c) - c.got }

  /** A chunk on its own: as much real audio as there was, and silence after it;
      and if it was taken before it was due, that leaves the reserve behind. */
  ghost predicate WellSent(c: Chunk, len: nat, reserve: nat)
  {
    && |c.pcm| == len && c.from <= c.supplied && c.got == Min(len, Level(c))
    && (forall i :: c.got <= i < len ==> c.pcm[i] == 0)
    && (c.at < c.due ==> Level(c) >= len + reserve)
    && c.at <= c.done <= c.seen
  }

  /** The deadline moves on by exactly a chunk, unless the look found the last one
      more than a chunk late: then it is a chunk after an instant between that look
      and the next take. The ring loses to the reader only what the reader took. */
  ghost predicate Follows(c: Chunk, d: Chunk, chunk: int)
  {
    && (c.seen - c.due <= chunk ==> d.due == c.due + chunk)
    && (c.seen - c.due > chunk ==> c.seen <= d.due - chunk <= d.at)
    && c.seen <= d.at
    && c.from + c.got <= d.from && c.supplied <= d.supplied && Left(c) <= Level(d)
  }

  ghost predicate Paced(trace: seq<Chunk>, len: nat, reserve: nat, chunk: int)
  {
    && (forall k :: 0 <= k < |trace| ==> WellSent(trace[k], len, reserve))
    && (forall k :: 0 < k < |trace| ==> Follows(trace[k - 1], trace[k], chunk))
  }

  /** The real samples of a chunk are consecutive ones of those written. */
  ghost predicate Sourced(c: Chunk, written: seq<int>)
  {
    && c.from + c.got <= c.supplied <= |written| && c.got <= |c.pcm|
    && c.pcm[..c.got] == written[c.from..c.from + c.got]
  }

  ghost predicate AllSourced(trace: seq<Chunk>, written: seq<int>)
  {
    forall k :: 0 <= k < |trace| ==> Sourced(trace[k], written)
  }

  function Padded(c: Chunk): bool
  {
    c.got < |c.pcm|
  }

  /** A padded chunk is never written before its deadline. */
  lemma PaddedIsNotEarly(trace: seq<Chunk>, len: nat, reserve: nat, chunk: int, k: nat)
    requires Paced(trace, len, reserve, chunk) && k < |trace| && Padded(trace[k])
    ensures trace[k].at >= trace[k].due
  {
    assert WellSent(trace[k], len, reserve);
  }

  /** Deadlines keep their distance, across any resynchronisation. */
  lemma {:induction false} DeadlinesSpaced(trace: seq<Chunk>, len: nat, reserve: nat, chunk: int,
                                           i: nat, j: nat)
    requires Paced(trace, len, reserve, chunk) && chunk >= 0 && 1 <= j && i + j < |trace|
    ensures trace[i + j].due >= trace[i].done + (j - 1) * chunk
    decreases j
  {
    assert Follows(trace[i + j - 1], trace[i + j], chunk) && WellSent(trace[i + j - 1], len, reserve);
    if j > 1 {
      DeadlinesSpaced(trace, len, reserve, chunk, i, j - 1);
      assert (j - 1) * chunk == (j - 2) * chunk + chunk;
    }
  }

  /** Pacing safety: if the j-th chunk after a write is padded, it goes out no
      earlier than j - 1 chunk durations after that write returned. */
  lemma PaddingIsPaced(trace: seq<Chunk>, len: nat, reserve: nat, chunk: int, i: nat, j: nat)
    requires Paced(trace, len, reserve, chunk) && chunk >= 0 && 1 <= j && i + j < |trace|
    requires Padded(trace[i + j])
    ensures trace[i + j].at >= trace[i].done + (j - 1) * chunk
  {
    PaddedIsNotEarly(trace, len, reserve, chunk, i + j);
    DeadlinesSpaced(trace, len, reserve, chunk, i, j);
  }

  /** No look from chunk i up to chunk i + j found its chunk more than one late. */
  ghost predicate InTime(trace: seq<Chunk>, i: nat, j: nat, chunk: int)
    requires i + j <= |trace|
  {
    forall k :: i <= k < i + j ==> trace[k].seen - trace[k].due <= chunk
  }

  lemma {:induction false} DeadlinesAtLeast(trace: seq<Chunk>, len: nat, reserve: nat, chunk: int,
                                            i: nat, j: nat)
    requires Paced(trace, len, reserve, chunk) && chunk >= 0 && i + j < |trace|
    ensures trace[i + j].due >= trace[i].due + j * chunk
    ensures trace[i + j].due == trace[i].due + j * chunk <==> InTime(trace, i, j, chunk)
    decreases j
  {
    if j > 0 {
      DeadlinesAtLeast(trace, len, reserve, chunk, i, j - 1);
      assert Follows(trace[i + j - 1], trace[i + j], chunk);
      assert j * chunk == (j - 1) * chunk + chunk;
    }
  }

  /** The rate, exactly: deadlines advance by a chunk each if and only if no write
      falls a whole chunk behind; and then lateness does not add up, however long
      the stream and however empty the ring. */
  lemma RateIsExact(trace: seq<Chunk>, len: nat, reserve: nat, chunk: int, i: nat, j: nat, slack: int)
    requires Paced(trace, len, reserve, chunk) && chunk >= 0 && i + j < |trace|
    ensures trace[i + j].due == trace[i].due + j * chunk <==> InTime(trace, i, j, chunk)
    ensures InTime(trace, i, j, chunk) && trace[i + j].at <= trace[i + j].due + slack ==>
      trace[i + j].at <= trace[i].due + j * chunk + slack
  {
    DeadlinesAtLeast(trace, len, reserve, chunk, i, j);
  }

  /** While starved the stream runs at exactly the rate of the clock: two padded
      chunks taken when due are as far apart as the chunks between them last. */
  lemma StarvedRateIsExact(trace: seq<Chunk>, len: nat, reserve: nat, chunk: int, i: nat, j: nat)
    requires Paced(trace, len, reserve, chunk) && chunk >= 0 && i + j < |trace|
    requires Padded(trace[i]) && Padded(trace[i + j]) && InTime(trace, i, j, chunk)
    requires trace[i].at <= trace[i].due && trace[i + j].at <= trace[i + j].due
    ensures trace[i + j].at == trace[i].at + j * chunk
  {
    PaddedIsNotEarly(trace, len, reserve, chunk, i);
    PaddedIsNotEarly(trace, len, reserve, chunk, i + j);
    DeadlinesAtLeast(trace, len, reserve, chunk, i, j);
  }

  // ---- bytes -----------------------------------------------------------------------

  /** Little-endian 16-bit words. */
  function LittleEndian(pcm: seq<int16>): (b: seq<byte>)
    ensures |b| == 2 * |pcm|
  {
    seq(2 * |pcm|, i requires 0 <= i < 2 * |pcm| =>
      var word := pcm[i / 2] as int % 0x1_0000;
      if i % 2 == 0 then word % 0x100 else word / 0x100)
  }

  /** The bytes on the wire determine the samples. */
  lemma LittleEndianReads(pcm: seq<int16>, j: nat)
    requires j < |pcm|
    ensures S16(LittleEndian(pcm)[2 * j] as int + 0x100 * LittleEndian(pcm)[2 * j + 1] as int) == pcm[j]
  {
    assert (2 * j) / 2 == j && (2 * j + 1) / 2 == j && (2 * j) % 2 == 0 && (2 * j + 1) % 2 == 1;
    var word := pcm[j] as int % 0x1_0000;
    assert word % 0x100 + 0x100 * (word / 0x100) == word;
  }

  ghost predicate IsSilence(raw: seq<byte>, frames: nat)
  {
    |raw| == 4 * frames && forall i :: 0 <= i < |raw| ==> raw[i] == 0
  }

  /** The chunks of a trace as they went over the wire. */
  function Wired(trace: seq<Chunk>): (w: seq<seq<byte>>)
    ensures |w| == |trace|
  {
    seq(|trace|, k requires 0 <= k < |trace| => LittleEndian(trace[k].pcm))
  }

  /** The audio of a trace, silence left out. */
  ghost function Real(trace: seq<Chunk>): seq<int>
  {
    if |trace| == 0 then []
    else
      var c := trace[|trace| - 1];
      Real(trace[..|trace| - 1]) + (if c.got <= |c.pcm| then c.pcm[..c.got] else [])
  }

  lemma TraceGrows(sent: seq<seq<byte>>, heard: seq<int>, trace: seq<Chunk>, c: Chunk)
    requires c.got <= |c.pcm|
    ensures heard + Real(trace + [c]) == heard + Real(trace) + c.pcm[..c.got]
    ensures sent + Wired(trace + [c]) == sent + Wired(trace) + [LittleEndian(c.pcm)]
  {
    hide LittleEndian;
    assert (trace + [c])[..|trace|] == trace;
    assert Wired(trace + [c]) == Wired(trace) + [LittleEndian(c.pcm)];
  }

  lemma NothingPaced(len: nat, reserve: nat, chunk: int)
    ensures Paced([], len, reserve, chunk)
  {
  }

  lemma NothingSent(sent: seq<seq<byte>>, heard: seq<int>)
    ensures sent + Wired([]) == sent && heard + Real([]) == heard == heard + Real([]) + []
  {
  }

  lemma DoneLater(c: Chunk, t: int, u: int, len: nat, reserve: nat)
    requires WellSent(c, len, reserve) && c.done <= t <= u
    ensures WellSent(c.(done := t, seen := u), len, reserve) && c.got <= |c.pcm|
  {
  }

  lemma PacedOn(trace: seq<Chunk>, c: Chunk, len: nat, reserve: nat, chunk: int)
    requires Paced(trace, len, reserve, chunk) && WellSent(c, len, reserve)
    requires |trace| > 0 ==> Follows(trace[|trace| - 1], c, chunk)
    ensures Paced(trace + [c], len, reserve, chunk)
  {
    hide WellSent, Follows;
  }

  lemma Distributes(k: int, x: int)
    ensures (k + 1) * x == k * x + x
  {
  }

  lemma NothingSourced(written: seq<int>)
    ensures AllSourced([], written)
  {
  }

  lemma SourcedOn(trace: seq<Chunk>, c: Chunk, written: seq<int>)
    requires AllSourced(trace, written) && Sourced(c, written)
    ensures AllSourced(trace + [c], written)
  {
    hide Sourced;
  }

  lemma SourcedIgnoresTimes(c: Chunk, done: int, seen: int, written: seq<int>)
    requires Sourced(c, written)
    ensures Sourced(c.(done := done, seen := seen), written)
  {
  }

  lemma SentShape(c: Chunk, len: nat, reserve: nat, written: seq<int>)
    requires WellSent(c, len, reserve) && Sourced(c, written)
    ensures |c.pcm| == len && c.got <= |c.pcm| && c.from + c.got <= c.supplied && c.at <= c.done <= c.seen
  {
  }

  /** After a chunk: where the next deadline starts from, and what the ring and
      the clock have come to. */
  ghost predicate Settles(c: Chunk, chunk: int, base: int, now: int, q: Queue)
  {
    && (if c.seen - c.due <= chunk then base == c.due else c.seen <= base <= now)
    && c.seen <= now && c.from + c.got <= q.head && c.supplied <= |q.written|
    && Left(c) <= |q.written| - q.head
  }

  lemma NextFollows(c: Chunk, d: Chunk, chunk: int, base: int, now: int, q: Queue)
    requires Settles(c, chunk, base, now, q) && d.due == base + chunk && now <= d.at
    requires q.head <= d.from && |q.written| <= d.supplied && Level(d) >= |q.written| - q.head
    ensures Follows(c, d, chunk)
  {
  }

  lemma NowSettles(c: Chunk, chunk: int, base: int, now: int, q: Queue)
    requires if c.seen - c.due <= chunk then base == c.due else c.seen <= base <= now
    requires c.seen <= now && c.from + c.got <= q.head && c.supplied <= |q.written|
    requires Left(c) <= |q.written| - q.head
    ensures Settles(c, chunk, base, now, q)
  {
  }

  /** A chunk of an idle world, after the instant prev, with the oldest sample at
      from and written samples in all: taken at once if the ring holds it and the
      reserve, and otherwise when it is due. */
  ghost predicate QuietChunk(c: Chunk, prev: int, from: nat, written: nat, need: int)
  {
    && c.supplied == written && c.from == from && c.seen == c.at
    && c.at == (if Level(c) >= need then prev else Max(prev, c.due))
  }

  /** The trace of an idle world: nothing is supplied or dropped. */
  ghost predicate Quiet(trace: seq<Chunk>, q: Queue, start: int, need: int)
  {
    && (|trace| > 0 ==> QuietChunk(trace[0], start, q.head, |q.written|, need))
    && forall k :: 0 < k < |trace| ==>
         QuietChunk(trace[k], trace[k - 1].at, trace[k - 1].from + trace[k - 1].got, |q.written|, need)
  }

  lemma NothingQuiet(q: Queue, start: int, need: int)
    ensures Quiet([], q, start, need)
  {
  }

  lemma QuietOn(trace: seq<Chunk>, c: Chunk, q: Queue, start: int, need: int)
    requires Quiet(trace, q, start, need)
    requires if |trace| == 0 then QuietChunk(c, start, q.head, |q.written|, need)
             else
               var p := trace[|trace| - 1];
               QuietChunk(c, p.at, p.from + p.got, |q.written|, need)
    ensures Quiet(trace + [c], q, start, need)
  {
    hide QuietChunk;
  }

  /** The main loop's state: what has been sent, where the next deadline starts
      from, the clock and the queue. */
  ghost predicate Running(trace: seq<Chunk>, len: nat, reserve: nat, chunk: int, start: int, fills: nat,
                          base: int, now: int, q: Queue)
  {
    && Paced(trace, len, reserve, chunk) && AllSourced(trace, q.written)
    && (|trace| == 0 ==> base == start + fills * chunk && now >= start)
    && (|trace| > 0 ==>
          && trace[0].at >= start && trace[0].due == start + (fills + 1) * chunk
          && Settles(trace[|trace| - 1], chunk, base, now, q))
  }

  lemma RunningMeans(trace: seq<Chunk>, len: nat, reserve: nat, chunk: int, start: int, fills: nat,
                     base: int, now: int, q: Queue, w: seq<int>)
    requires Running(trace, len, reserve, chunk, start, fills, base, now, q) && Extends(q.written, w)
    ensures Paced(trace, len, reserve, chunk) && AllSourced(trace, w)
    ensures |trace| > 0 ==> trace[0].at >= start && trace[0].due == start + (fills + 1) * chunk
  {
    hide Paced, AllSourced, Settles;
    AllSourcedStill(trace, q.written, w);
  }

  lemma RunningStarts(len: nat, reserve: nat, chunk: int, start: int, fills: nat, now: int, q: Queue)
    requires now >= start
    ensures Running([], len, reserve, chunk, start, fills, start + fills * chunk, now, q)
  {
    NothingPaced(len, reserve, chunk);
    NothingSourced(q.written);
  }

  /** One iteration keeps it. */
  lemma RunsOn(trace: seq<Chunk>, c: Chunk, len: nat, reserve: nat, chunk: int, start: int, fills: nat,
               base: int, now: int, q: Queue, base': int, now': int, q': Queue)
    requires Running(trace, len, reserve, chunk, start, fills, base, now, q) && Extends(q.written, q'.written)
    requires WellSent(c, len, reserve) && Sourced(c, q'.written) && c.due == base + chunk && now <= c.at
    requires q.head <= c.from && |q.written| <= c.supplied && Level(c) >= |q.written| - q.head
    requires Settles(c, chunk, base', now', q')
    ensures Running(trace + [c], len, reserve, chunk, start, fills, base', now', q')
  {
    hide Paced, AllSourced, Settles, WellSent, Sourced, Extends, Follows;
    AllSourcedStill(trace, q.written, q'.written);
    if |trace| > 0 {
      NextFollows(trace[|trace| - 1], c, chunk, base, now, q);
    } else {
      Distributes(fills, chunk);
    }
    PacedOn(trace, c, len, reserve, chunk);
    SourcedOn(trace, c, q'.written);
  }

  /** What is left beyond a chunk and the reserve goes out at once. */
  ghost predicate AtOnce(trace: seq<Chunk>, need: int)
  {
    forall k :: 0 < k < |trace| && Left(trace[k - 1]) >= need ==> trace[k].at == trace[k - 1].seen
  }

  lemma AtOnceOn(trace: seq<Chunk>, c: Chunk, need: int)
    requires AtOnce(trace, need)
    requires |trace| > 0 && Left(trace[|trace| - 1]) >= need ==> c.at == trace[|trace| - 1].seen
    ensures AtOnce(trace + [c], need)
  {
  }

  lemma NothingAtOnce(need: int)
    ensures AtOnce([], need)
  {
  }

  /** The same for an idle world in which the main loop started at once on queue o. */
  ghost predicate Idling(trace: seq<Chunk>, o: Queue, start: int, need: int, now: int, q: Queue)
  {
    && Quiet(trace, o, start, need) && q.written == o.written
    && (|trace| == 0 ==> now == start && q.head == o.head)
    && (|trace| > 0 ==>
          var p := trace[|trace| - 1]; now == p.at && q.head == p.from + p.got)
  }

  lemma IdlesOn(trace: seq<Chunk>, c: Chunk, o: Queue, start: int, need: int, now: int, q: Queue,
                now': int, q': Queue)
    requires Idling(trace, o, start, need, now, q)
    requires q'.written == q.written && QuietChunk(c, now, q.head, |q.written|, need)
    requires now' == c.at && q'.head == c.from + c.got
    ensures Idling(trace + [c], o, start, need, now', q')
  {
    hide Quiet, QuietChunk;
    QuietOn(trace, c, o, start, need);
  }

  lemma IdlingMeans(trace: seq<Chunk>, o: Queue, start: int, need: int, now: int, q: Queue)
    requires Idling(trace, o, start, need, now, q)
    ensures Quiet(trace, o, start, need)
  {
  }

  lemma QuietIs(c: Chunk, prev: int, from: nat, written: nat, need: int)
    requires c.supplied == written && c.from == from && c.seen == c.at
    requires c.at == if Level(c) >= need then prev else Max(prev, c.due)
    ensures QuietChunk(c, prev, from, written, need)
  {
  }

  lemma IdlingStarts(o: Queue, start: int, need: int, q: Queue)
    requires q == o
    ensures Idling([], o, start, need, start, q)
  {
  }

  /** Each chunk of startup silence is handed over no earlier than its deadline. */
  ghost predicate NotEarly(times: seq<int>, start: int, chunk: int)
  {
    forall k :: 0 <= k < |times| ==> times[k] >= start + (k + 1) * chunk
  }

  lemma NotEarlyOn(times: seq<int>, t: int, start: int, chunk: int)
    requires NotEarly(times, start, chunk) && t >= start + (|times| + 1) * chunk
    ensures NotEarly(times + [t], start, chunk)
  {
  }

  /** Each is handed over exactly when its deadline comes. */
  ghost predicate OnTheDot(times: seq<int>, start: int, chunk: int)
  {
    forall k :: 0 <= k < |times| ==> times[k] == start + (k + 1) * chunk
  }

  lemma OnTheDotOn(times: seq<int>, t: int, start: int, chunk: int)
    requires OnTheDot(times, start, chunk) && t == start + (|times| + 1) * chunk
    ensures OnTheDot(times + [t], start, chunk)
  {
  }

  lemma OnTheDotNone(start: int, chunk: int)
    ensures OnTheDot([], start, chunk)
  {
  }

  lemma NothingEarly(start: int, chunk: int)
    ensures NotEarly([], start, chunk)
  {
  }

  // ---- the world -------------------------------------------------------------------

  /** A natural number chosen by the environment. */
  method AnyNat() returns (n: nat)
  {
    var x: int := *;
    n := if x < 0 then -x else x;
  }

  /** Nothing is rewritten: b continues a. */
  ghost predicate Extends(a: seq<int>, b: seq<int>)
  {
    a <= b
  }

  lemma ExtendsOnwards()
    ensures forall a: seq<int>, b: seq<int> :: Extends(a, b) ==> |a| <= |b|
    ensures forall a: seq<int>, b: seq<int>, c: seq<int> :: Extends(a, b) && Extends(b, c) ==> Extends(a, c)
  {
  }

  lemma ExtendsStep(a: seq<int>, b: seq<int>, c: seq<int>)
    ensures Extends(a, a)
    ensures Extends(a, b) && Extends(b, c) ==> Extends(a, c)
  {
  }

  lemma SourcedStill(c: Chunk, a: seq<int>, b: seq<int>)
    requires Extends(a, b) && Sourced(c, a)
    ensures Sourced(c, b)
  {
    assert a[c.from..c.from + c.got] == b[c.from..c.from + c.got];
  }

  lemma AllSourcedStill(trace: seq<Chunk>, a: seq<int>, b: seq<int>)
    requires Extends(a, b) && AllSourced(trace, a)
    ensures AllSourced(trace, b)
  {
    hide Extends, Sourced;
    forall k | 0 <= k < |trace| ensures Sourced(trace[k], b) { SourcedStill(trace[k], a, b); }
  }

  /** How the rest of the program runs. Freely: it may take time and write to the
      ring whenever it gets to run, and every wake-up may come late. Exactly: it
      writes only while the writer is blocked, and nothing is late. Idle: it does
      nothing, either. */
  datatype Pace = Free | Exact | Idle

  /** The clock, the ring that the RTP side fills, and a connection that accepts a
      number of writes before it fails, as a disconnect makes it. */
  class World {
    const ring: Ring
    var now: int
    var accepts: nat
    var sent: seq<seq<byte>>

    const pace: Pace

    /** History: everything written to the ring and which of it was taken, and the
        samples taken. */
    ghost var q: Queue
    ghost var heard: seq<int>

    /** When the sender last wrote, and how much the ring held before. */
    ghost var lastWrite: int
    ghost var before: int

    constructor (r: Ring, start: int, n: nat, others: Pace)
      requires r.Valid()
      ensures Valid() && ring == r && now == start && accepts == n && sent == [] && pace == others
      ensures heard == [] && q.written == r.Contents() && q.head == 0
    {
      ring, now, accepts, sent, pace := r, start, n, [], others;
      q, heard := Queue(r.Contents(), 0, [], r.dropped, r.underrun), [];
      lastWrite, before := start, 0;
    }

    /** What was taken is an in-order part of what was written, and the ring holds
        what was neither taken nor dropped. */
    ghost predicate Valid()
      reads this, ring, ring.buf
    {
      Agrees(ring, heard, q) && ValidQueue(q, ring.buf.Length) && ReadsInOrder(q)
    }

    /** How many samples are in the ring. */
    ghost function Buffered(): int
      reads this
    {
      |q.written| - q.head
    }

    /** r.Len(). */
    method Depth() returns (k: nat)
      requires Valid()
      ensures k == Buffered()
    {
      k := ring.Len();
    }

    /** The sender writes to the ring. */
    method Fill(xs: seq<int16>)
      requires Valid()
      modifies this`q, this`lastWrite, this`before, ring`r, ring`w, ring`n, ring`dropped, ring`wake, ring.buf
      ensures Valid() && q.written == old(q.written) + xs && lastWrite == now && before == old(Buffered())
      ensures old(q.head) <= q.head && Buffered() >= old(Buffered())
    {
      hide LastOf, Around;
      lastWrite, before := now, Buffered();
      StepQueued(q, Write(xs), ring.buf.Length);
      StepInOrder(q, Write(xs), ring.buf.Length);
      q := Step(q, Write(xs), ring.buf.Length);
      ring.Write(xs);
    }

    /** The writer takes what there is, and silence for the rest. */
    method Drain(samples: array<int16>) returns (got: nat)
      requires Valid() && samples != ring.buf
      modifies this`q, this`heard, ring`r, ring`n, ring`underrun, samples
      ensures Valid() && got == Min(samples.Length, old(Buffered()))
      ensures q.written == old(q.written) && q.head == old(q.head) + got <= |q.written|
      ensures samples[..got] == q.written[old(q.head)..q.head]
      ensures heard == old(heard) + samples[..got]
      ensures forall i :: got <= i < samples.Length ==> samples[i] == 0
    {
      hide Around;
      StepQueued(q, Read(samples.Length), ring.buf.Length);
      StepInOrder(q, Read(samples.Length), ring.buf.Length);
      ghost var was := q;
      q := Step(q, Read(samples.Length), ring.buf.Length);
      got := ring.ReadNow(samples);
      heard := heard + samples[..got];
      assert Queued(was)[..got] == was.written[was.head..was.head + got];
    }

    /** Other goroutines run while the writer does: time passes and the sender may
        write. */
    method Elapse()
      requires Valid()
      modifies this`now, this`q, this`lastWrite, this`before, ring`r, ring`w, ring`n, ring`dropped, ring`wake, ring.buf
      ensures Valid() && now >= old(now) && Extends(old(q.written), q.written)
      ensures old(q.head) <= q.head && Buffered() >= old(Buffered())
      ensures !pace.Free? ==> now == old(now) && q == old(q) && lastWrite == old(lastWrite) && before == old(before)
    {
      if !pace.Free? {
        return;
      }
      var dt := AnyNat();
      now := now + dt;
      var write: bool := *;
      if write {
        var xs: seq<int16> := *;
        Fill(xs);
      }
    }

    /** Blocks until a timer set for t has fired. */
    method Sleep(t: int)
      requires Valid()
      modifies this`now, this`q, this`lastWrite, this`before, ring`r, ring`w, ring`n, ring`dropped, ring`wake, ring.buf
      ensures Valid() && now >= t && now >= old(now) && Extends(old(q.written), q.written)
      ensures old(q.head) <= q.head && Buffered() >= old(Buffered())
      ensures !pace.Free? ==> now == Max(old(now), t)
      ensures pace.Idle? ==> q == old(q)
    {
      hide Agrees, ReadsInOrder, ValidQueue, Around;
      Elapse();
      if now < t {
        var write: bool := *;
        if write && pace.Exact? {
          var dt := AnyNat();
          var xs: seq<int16> := *;
          now := Min(now + dt, t);
          Fill(xs);
        }
        var late := AnyNat();
        now := if pace.Free? then t + late else t;
      }
    }

    /** Blocks on the wake channel and a timer, whichever is first; either, if both
        are ready. fuel bounds how often the sender will still write. */
    method Await(deadline: int, fuel: nat) returns (woken: bool, rest: nat)
      requires Valid()
      modifies this`now, this`q, this`lastWrite, this`before, ring`r, ring`w, ring`n, ring`dropped, ring`wake, ring.buf
      ensures Valid() && now >= old(now) && Extends(old(q.written), q.written)
      ensures old(q.head) <= q.head && Buffered() >= old(Buffered())
      ensures rest <= fuel && (woken ==> !ring.wake && (rest < fuel || old(ring.wake)))
      ensures !woken ==> now >= deadline
      ensures !pace.Free? && !woken ==> now == Max(old(now), deadline) && q == old(q)
      ensures !pace.Free? ==> now <= Max(old(now), deadline)
      ensures !pace.Free? && q != old(q) ==> woken && lastWrite == now && before == old(Buffered())
      ensures pace.Idle? ==> q == old(q) && (woken ==> now == old(now))
    {
      hide ReadsInOrder, ValidQueue, Around;
      rest := fuel;
      var timer: bool := *;
      if ring.wake && !(timer && (pace.Free? || now >= deadline)) {
        ring.wake := false;
        return true, rest;
      }
      if fuel == 0 || timer || pace.Idle? {
        now := Max(now, deadline);
        Elapse();
        return false, rest;
      }
      var dt := AnyNat();
      var xs: seq<int16> := *;
      now := if pace.Free? then now + dt else Min(now + dt, Max(now, deadline));
      Fill(xs);
      ring.wake := false;
      return true, fuel - 1;
    }

    /** WaitFor of ring.go: looks at once, at every wake-up and when the timer has
        fired, and returns at the first look that finds need samples. */
    method WaitFor(need: nat, timeout: int) returns (ok: bool)
      requires Valid()
      modifies this`now, this`q, this`lastWrite, this`before, ring`r, ring`w, ring`n, ring`dropped, ring`wake, ring.buf
      ensures Valid() && now >= old(now) && Extends(old(q.written), q.written)
      ensures old(q.head) <= q.head && Buffered() >= old(Buffered())
      ensures ok <==> Buffered() >= need
      ensures !ok ==> now >= old(now) + timeout
      ensures old(Buffered()) >= need ==> ok && now == old(now) && q == old(q)
      ensures !pace.Free? && ok && old(Buffered()) < need ==>
        lastWrite == now <= Max(old(now), old(now) + timeout) && before < need
      ensures !pace.Free? && !ok ==> now == Max(old(now), old(now) + timeout)
      ensures pace.Idle? ==> q == old(q)
    {
      hide Extends, ReadsInOrder, ValidQueue, Around;
      ExtendsOnwards();
      ExtendsStep(q.written, q.written, q.written);
      var depth := Depth();
      if depth >= need {
        return true;
      }
      var deadline := now + timeout;
      var fuel := AnyNat();
      while true
        invariant Valid() && now >= old(now) && Extends(old(q.written), q.written)
        invariant old(q.head) <= q.head && Buffered() >= old(Buffered()) && Buffered() < need
        invariant !pace.Free? ==> now <= Max(old(now), deadline)
        invariant pace.Idle? ==> q == old(q)
        decreases fuel, if ring.wake then 1 else 0
      {
        var woken;
        woken, fuel := Await(deadline, fuel);
        depth := Depth();
        if !woken || depth >= need {
          return depth >= need;
        }
      }
    }

    /** A write to the connection: takes any time, and fails once it has accepted
        as many as it will. */
    method Send(raw: seq<byte>) returns (ok: bool)
      requires Valid()
      modifies this`now, this`accepts, this`sent, this`q, this`lastWrite, this`before, ring`r,
               ring`w, ring`n, ring`dropped, ring`wake, ring.buf
      ensures Valid() && now >= old(now) && Extends(old(q.written), q.written)
      ensures old(q.head) <= q.head && Buffered() >= old(Buffered())
      ensures !pace.Free? ==> now == old(now) && q == old(q)
      ensures ok == (old(accepts) > 0)
      ensures accepts == (if ok then old(accepts) - 1 else 0)
      ensures sent == (if ok then old(sent) + [raw] else old(sent))
    {
      hide Extends, Agrees, ReadsInOrder, ValidQueue, Around;
      Elapse();
      ok := accepts > 0;
      if ok {
        accepts := accepts - 1;
        sent := sent + [raw];
      }
    }

    /** Startup: silence at the pace of the clock until the ring holds the reserve
        or a reserve's worth has gone out. Nothing is taken from the ring. start is
        when it began, times when each chunk of silence was handed over, and next
        the deadline reached. */
    method FillStartup(chunkFrames: nat, chunk: int)
      returns (next: int, failed: bool, ghost start: int, ghost times: seq<int>)
      requires Valid() && chunkFrames > 0 && chunk >= 0
      modifies this`now, this`accepts, this`sent, this`q, this`lastWrite, this`before, ring`r,
               ring`w, ring`n, ring`dropped, ring`wake, ring.buf
      ensures Valid() && now >= start >= old(now) && Extends(old(q.written), q.written)
      ensures old(q.head) <= q.head && Buffered() >= old(Buffered())
      ensures !pace.Free? ==> start == old(now) && OnTheDot(times, start, chunk)
      ensures !pace.Free? && !failed ==> now == start + |times| * chunk
      ensures pace.Idle? || (!pace.Free? && times == [] && !failed) ==> q == old(q)
      ensures old(sent) <= sent && |times| == |sent| - |old(sent)| == old(accepts) - accepts
      ensures forall k :: |old(sent)| <= k < |sent| ==> IsSilence(sent[k], chunkFrames)
      ensures NotEarly(times, start, chunk)
      ensures !failed ==> next == start + |times| * chunk
      ensures !failed ==> Buffered() >= RESERVE_FRAMES * CHANNELS || |times| * chunkFrames >= RESERVE_FRAMES
      ensures |times| > 0 ==> (|times| - 1) * chunkFrames < RESERVE_FRAMES
      ensures old(Buffered()) >= RESERVE_FRAMES * CHANNELS ==> times == [] && !failed
      ensures failed ==> accepts == 0
    {
      hide Extends, Agrees, ReadsInOrder, ValidQueue, Around, NotEarly, OnTheDot;
      ExtendsOnwards();
      ExtendsStep(q.written, q.written, q.written);
      Elapse();
      next, failed, start, times := now, false, now, [];
      NothingEarly(start, chunk);
      OnTheDotNone(start, chunk);
      var filled := 0;
      var depth := Depth();
      while filled < RESERVE_FRAMES && depth < RESERVE_FRAMES * CHANNELS
        invariant Valid() && now >= start && Extends(old(q.written), q.written)
        invariant old(q.head) <= q.head && Buffered() >= old(Buffered()) && depth == Buffered()
        invariant !pace.Free? ==> now == next && OnTheDot(times, start, chunk)
        invariant pace.Idle? || (!pace.Free? && times == []) ==> q == old(q)
        invariant old(sent) <= sent && |times| == |sent| - |old(sent)| == old(accepts) - accepts
        invariant forall k :: |old(sent)| <= k < |sent| ==> IsSilence(sent[k], chunkFrames)
        invariant NotEarly(times, start, chunk)
        invariant next == start + |times| * chunk && filled == |times| * chunkFrames
        invariant |times| > 0 ==> filled - chunkFrames < RESERVE_FRAMES
        invariant old(Buffered()) >= RESERVE_FRAMES * CHANNELS ==> times == []
        decreases RESERVE_FRAMES - filled
      {
        Distributes(|times|, chunk);
        Distributes(|times|, chunkFrames);
        next := next + chunk;
        Sleep(next);
        ghost var handed := now;
        var silence := seq(chunkFrames * CHANNELS * 2, _ => 0);
        var ok := Send(silence);
        if !ok {
          Distributes(|times| - 1, chunkFrames);
          failed := true;
          return;
        }
        NotEarlyOn(times, handed, start, chunk);
        if !pace.Free? { OnTheDotOn(times, handed, start, chunk); }
        times := times + [handed];
        filled := filled + chunkFrames;
        depth := Depth();
      }
      Distributes(|times| - 1, chunkFrames);
    }

    /** The part of an iteration up to the write: hold the reserve back until the
        deadline at the latest, then take what is there. */
    method PrepareChunk(samples: array<int16>, next: int) returns (ghost c: Chunk)
      requires Valid() && samples != ring.buf
      modifies this`now, this`q, this`lastWrite, this`before, this`heard, ring, ring.buf, samples
      ensures Valid() && Extends(old(q.written), q.written)
      ensures c.due == next && old(now) <= c.at == now == c.done == c.seen
      ensures WellSent(c, samples.Length, RESERVE_FRAMES * CHANNELS) && c.pcm == samples[..]
      ensures Sourced(c, q.written) && heard == old(heard) + c.pcm[..c.got]
      ensures old(q.head) <= c.from && Level(c) >= old(Buffered())
      ensures q.head == c.from + c.got && |q.written| == c.supplied
      ensures pace.Idle? ==> q.written == old(q.written) && c.from == old(q.head)
      ensures !pace.Free? ==>
        var need := samples.Length + RESERVE_FRAMES * CHANNELS;
        if old(Buffered()) >= need then c.at == old(now)
        else if Level(c) >= need then lastWrite == c.at <= Max(old(now), next) && before < need
        else c.at == Max(old(now), next)
    {
      hide Extends, Agrees, ReadsInOrder, ValidQueue, Around;
      ExtendsOnwards();
      ExtendsStep(q.written, q.written, q.written);
      Elapse();
      var wait := next - now;
      if wait > 0 {
        Elapse();
        var filled := WaitFor(samples.Length + RESERVE_FRAMES * CHANNELS, wait);
      }
      assert now < next ==> Buffered() >= samples.Length + RESERVE_FRAMES * CHANNELS;
      ghost var from := q.head;
      var got := Drain(samples);
      c := Chunk(next, now, now, now, samples[..], from, |q.written|, got);
    }

    /** The samples as little-endian bytes. */
    method Encode(samples: array<int16>, raw: array<byte>)
      requires raw.Length == 2 * samples.Length
      modifies raw
      ensures raw[..] == LittleEndian(samples[..])
    {
      var i := 0;
      while i < samples.Length
        invariant 0 <= i <= samples.Length
        invariant forall j :: 0 <= j < 2 * i ==> raw[j] == LittleEndian(samples[..])[j]
      {
        var word := samples[i] as int % 0x1_0000;
        raw[2 * i] := word % 0x100;
        raw[2 * i + 1] := word / 0x100;
        i := i + 1;
      }
    }

    /** The tail of an iteration: the next deadline's base stays where it is, unless
        the look at the clock finds it more than a chunk past; then it is the time
        of a second look. */
    method Resynchronise(next: int, chunk: int) returns (base: int, ghost seen: int)
      requires Valid() && chunk >= 0
      modifies this`now, this`q, this`lastWrite, this`before, ring`r, ring`w, ring`n, ring`dropped, ring`wake, ring.buf
      ensures Valid() && Extends(old(q.written), q.written)
      ensures old(q.head) <= q.head && Buffered() >= old(Buffered())
      ensures old(now) <= seen <= now
      ensures if seen - next <= chunk then base == next else seen <= base <= now
      ensures !pace.Free? ==> now == old(now) && q == old(q)
    {
      hide Extends, Agrees, ReadsInOrder, ValidQueue, Around;
      ExtendsOnwards();
      ExtendsStep(q.written, q.written, q.written);
      base := next;
      Elapse();
      seen := now;
      if now - next > chunk {
        Elapse();
        base := now;
      }
    }

    /** One iteration of the main loop: prepare a chunk, write it, and settle the
        base of the next deadline. */
    method SendChunk(samples: array<int16>, raw: array<byte>, next: int, chunk: int)
      returns (ok: bool, base: int, ghost c: Chunk)
      requires Valid() && samples != ring.buf && raw.Length == 2 * samples.Length && chunk >= 0
      modifies this, ring, ring.buf, samples, raw
      ensures Valid() && Extends(old(q.written), q.written) && now >= old(now)
      ensures ok == (old(accepts) > 0) && accepts == (if ok then old(accepts) - 1 else 0)
      ensures sent == (if ok then old(sent) + [LittleEndian(c.pcm)] else old(sent))
      ensures WellSent(c, samples.Length, RESERVE_FRAMES * CHANNELS) && Sourced(c, q.written)
      ensures c.got <= |c.pcm| && heard == old(heard) + c.pcm[..c.got]
      ensures c.due == next && old(now) <= c.at && c.seen <= now
      ensures old(q.head) <= c.from && |old(q.written)| <= c.supplied && Level(c) >= old(Buffered())
      ensures c.from + c.got <= q.head && c.supplied <= |q.written| && Left(c) <= Buffered()
      ensures ok ==> if c.seen - next <= chunk then base == next else c.seen <= base <= now
      ensures !pace.Free? ==> now == c.at == c.seen && q.head == c.from + c.got && Buffered() == Left(c)
      ensures !pace.Free? ==>
        var need := samples.Length + RESERVE_FRAMES * CHANNELS;
        (old(Buffered()) >= need ==> c.at == old(now)) && (Level(c) < need ==> c.at == Max(old(now), next))
      ensures pace.Idle? ==> q.written == old(q.written) && c.from == old(q.head) && c.supplied == |q.written|
    {
      hide LittleEndian, WellSent, Sourced;
      hide Extends, Agrees, ReadsInOrder, ValidQueue, Around;
      ExtendsOnwards();
      ExtendsStep(q.written, q.written, q.written);
      base := next;
      ghost var taken := PrepareChunk(samples, next);
      c := taken;
      SentShape(taken, samples.Length, RESERVE_FRAMES * CHANNELS, q.written);
      ghost var w := q.written;
      Encode(samples, raw);
      ok := Send(raw[..]);
      SourcedStill(taken, w, q.written);
      if !ok {
        return;
      }
      ghost var done, seen := now, now;
      base, seen := Resynchronise(next, chunk);
      DoneLater(taken, done, seen, samples.Length, RESERVE_FRAMES * CHANNELS);
      c := taken.(done := done, seen := seen);
      SourcedStill(taken, w, q.written);
      SourcedIgnoresTimes(taken, done, seen, q.written);
    }

    /** StreamPCM: copies from the ring until the connection fails. What went out
        is silence while the ring filled, then the trace of the main loop. The
        audio of a last chunk whose write failed is taken and unsent. */
    method StreamPCM(chunkFrames: int)
      returns (ghost trace: seq<Chunk>, ghost startup: seq<seq<byte>>, ghost unsent: seq<int>, frames: nat,
               ghost start: int, ghost fillTimes: seq<int>)
      requires Valid()
      modifies this, ring, ring.buf
      ensures Valid() && frames == (if chunkFrames <= 0 then SAMPLE_RATE / 10 else chunkFrames)
      ensures Paced(trace, frames * CHANNELS, RESERVE_FRAMES * CHANNELS, frames * SECOND / SAMPLE_RATE)
      ensures start >= old(now) && (|trace| > 0 ==>
        trace[0].at >= start && trace[0].due == start + (|startup| + 1) * (frames * SECOND / SAMPLE_RATE))
      ensures sent == old(sent) + startup + Wired(trace) && |startup| + |trace| == old(accepts) && accepts == 0
      ensures forall k :: 0 <= k < |startup| ==> IsSilence(startup[k], frames)
      ensures |fillTimes| == |startup| && NotEarly(fillTimes, start, frames * SECOND / SAMPLE_RATE)
      ensures |startup| > 0 ==> (|startup| - 1) * frames < RESERVE_FRAMES
      ensures old(Buffered()) >= RESERVE_FRAMES * CHANNELS ==> startup == []
      ensures heard == old(heard) + Real(trace) + unsent
      ensures AllSourced(trace, q.written) && Extends(old(q.written), q.written)
      ensures !pace.Free? ==> start == old(now) && OnTheDot(fillTimes, start, frames * SECOND / SAMPLE_RATE)
      ensures !pace.Free? ==> AtOnce(trace, frames * CHANNELS + RESERVE_FRAMES * CHANNELS)
      ensures pace.Idle? && startup == [] ==>
        Quiet(trace, old(q), start, frames * CHANNELS + RESERVE_FRAMES * CHANNELS)
    {
      hide LittleEndian, Real, Wired, Paced, WellSent, Sourced, AllSourced, Quiet, QuietChunk, IsSilence,
        Follows, Settles, NotEarly, OnTheDot, AtOnce, Running, Idling;
      hide Extends, Agrees, ReadsInOrder, ValidQueue, Around;
      frames := if chunkFrames <= 0 then SAMPLE_RATE / 10 else chunkFrames;
      var samples := new int16[frames * CHANNELS](_ => 0);
      var raw := new byte[samples.Length * 2](_ => 0);
      var chunk := frames * SECOND / SAMPLE_RATE;
      ghost var o, reserve := q, RESERVE_FRAMES * CHANNELS;
      trace, unsent := [], [];
      var next, failed;
      next, failed, start, fillTimes := FillStartup(frames, chunk);
      startup := sent[|old(sent)|..];
      ghost var silent, fills := sent, |startup|;
      assert silent == old(sent) + startup;
      NothingSent(silent, heard);
      ExtendsStep(q.written, q.written, q.written);
      RunningStarts(samples.Length, reserve, chunk, start, fills, now, q);
      RunningMeans([], samples.Length, reserve, chunk, start, fills, start + fills * chunk, now, q, q.written);
      NothingQuiet(o, start, samples.Length + reserve);
      NothingAtOnce(samples.Length + reserve);
      if failed {
        return;
      }
      if pace.Idle? && fills == 0 { IdlingStarts(o, start, samples.Length + reserve, q); }
      ExtendsStep(o.written, q.written, q.written);
      ghost var opening := q.written;
      trace, unsent := MainLoop(samples, raw, next, chunk, start, fills, o);
      ExtendsStep(o.written, opening, q.written);
    }

    /** StreamPCM's main loop, from the deadline base that startup reached. */
    method MainLoop(samples: array<int16>, raw: array<byte>, next: int, chunk: int, ghost start: int,
                    ghost fills: nat, ghost o: Queue)
      returns (ghost trace: seq<Chunk>, ghost unsent: seq<int>)
      requires Valid() && samples != ring.buf && raw.Length == 2 * samples.Length && chunk >= 0
      requires Running([], samples.Length, RESERVE_FRAMES * CHANNELS, chunk, start, fills, next, now, q)
      requires pace.Idle? && fills == 0 ==> Idling([], o, start, samples.Length + RESERVE_FRAMES * CHANNELS, now, q)
      modifies this, ring, ring.buf, samples, raw
      ensures Valid() && Extends(old(q.written), q.written) && accepts == 0
      ensures Paced(trace, samples.Length, RESERVE_FRAMES * CHANNELS, chunk) && AllSourced(trace, q.written)
      ensures |trace| > 0 ==> trace[0].at >= start && trace[0].due == start + (fills + 1) * chunk
      ensures sent == old(sent) + Wired(trace) && |trace| == old(accepts)
      ensures heard == old(heard) + Real(trace) + unsent
      ensures pace.Idle? && fills == 0 ==> Quiet(trace, o, start, samples.Length + RESERVE_FRAMES * CHANNELS)
      ensures !pace.Free? ==> AtOnce(trace, samples.Length + RESERVE_FRAMES * CHANNELS)
    {
      hide LittleEndian, Real, Wired, Paced, WellSent, Sourced, AllSourced, Quiet, QuietChunk,
        Follows, Settles, Running, Idling, AtOnce;
      hide Extends, Agrees, ReadsInOrder, ValidQueue, Around;
      ghost var reserve, w := RESERVE_FRAMES * CHANNELS, q.written;
      var base := next;
      trace, unsent := [], [];
      NothingSent(sent, heard);
      NothingAtOnce(samples.Length + reserve);
      ExtendsStep(w, w, w);
      while true
        invariant Valid() && Extends(w, q.written)
        invariant Running(trace, samples.Length, reserve, chunk, start, fills, base, now, q)
        invariant sent == old(sent) + Wired(trace) && unsent == [] && |trace| + accepts == old(accepts)
        invariant heard == old(heard) + Real(trace)
        invariant pace.Idle? && fills == 0 ==> Idling(trace, o, start, samples.Length + reserve, now, q)
        invariant !pace.Free? ==> AtOnce(trace, samples.Length + reserve)
        invariant !pace.Free? && |trace| > 0 ==>
          Left(trace[|trace| - 1]) == Buffered() && now == trace[|trace| - 1].seen
        decreases accepts
      {
        ghost var was, t, b := q, now, base;
        var ok;
        ghost var c;
        ok, base, c := SendChunk(samples, raw, base + chunk, chunk);
        SentShape(c, samples.Length, reserve, q.written);
        ExtendsStep(w, was.written, q.written);
        if !ok {
          unsent := c.pcm[..c.got];
          RunningMeans(trace, samples.Length, reserve, chunk, start, fills, b, t, was, q.written);
          if pace.Idle? && fills == 0 { IdlingMeans(trace, o, start, samples.Length + reserve, t, was); }
          return;
        }
        TraceGrows(old(sent), old(heard), trace, c);
        NowSettles(c, chunk, base, now, q);
        RunsOn(trace, c, samples.Length, reserve, chunk, start, fills, b, t, was, base, now, q);
        if pace.Idle? && fills == 0 {
          QuietIs(c, t, was.head, |was.written|, samples.Length + reserve);
          IdlesOn(trace, c, o, start, samples.Length + reserve, t, was, now, q);
        }
        if !pace.Free? { AtOnceOn(trace, c, samples.Length + reserve); }
        trace := trace + [c];
      }
    }
  }
}
