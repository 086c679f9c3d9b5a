/** From packets to the consumer: what happens to the record of every key while a table
    works, and with which packet numbers the records of n tables arrive behind the mergers. */
module EndToEnd {
  import opened Distribution
  import opened ExportOrder
  import opened FlowSegments
  import opened LazyTimers
  import opened RecordStamps
  import opened TcpEnd
  import opened Wrappers
  import ExportLog
  import MergeNetwork
  import Pipeline
  import RecordLife

  // An operation of a table, and the number of its packet in the input.
  datatype Numbered = Numbered(op: Op, nr: nat)

  function Bare(ops: seq<Numbered>): (r: seq<Op>)
    ensures |r| == |ops|
  {
    if ops == [] then [] else [ops[0].op] + Bare(ops[1..])
  }

  // The numbers of the key's packets.
  function NumbersOf(ops: seq<Numbered>, k: Key): (r: seq<nat>)
    ensures |r| == |PacketsOf(Bare(ops), k)|
  {
    if ops == [] then []
    else
      var o := ops[0];
      assert Bare(ops)[1..] == Bare(ops[1..]);
      (if o.op.Event? && o.op.p.key == k then [o.nr] else []) + NumbersOf(ops[1..], k)
  }

  /** ---- what happens to a key's record ---- */

  type Lived = RecordLife.Event

  // The flow ends.
  function Closing(a: KeyState, b: KeyState, r: nat, expiring: bool): seq<Lived> {
    if a.live.Some? && b.live.None? && b.done != [] then
      [RecordLife.Ended(r, b.done[|b.done| - 1].expiry, false, expiring)]
    else []
  }

  function Arrival(r: nat, p: Packet, nr: nat): Lived {
    RecordLife.Packet(r, nr, p.time, [], RecordLife.Through(false, false, false))
  }

  // A packet of this key: the timers, the packet, and the end of the flow if it ends it.
  ghost function OwnEvents(cfg: Config, s: KeyState, p: Packet, nr: nat, r: nat): seq<Lived>
    requires Proper(s)
  {
    var s1 := ExpireAt(cfg, s, p.time);
    Closing(s, s1, r, false) + [Arrival(r, p, nr)]
    + if Joined(cfg, s1, p).live.None? then [RecordLife.Ended(r, p.time, false, false)] else []
  }

  /** The events of record r, which belongs to key k, at one operation of the table. */
  ghost function StepEvents(cfg: Config, s: KeyState, w: nat, o: Numbered, k: Key, r: nat): seq<Lived>
    requires Proper(s)
  {
    match o.op
    case Expire(when) => Closing(s, ExpireAt(cfg, s, when), r, true)
    case Event(p) =>
      var s1 := Windowed(cfg, s, w, p);
      Closing(s, s1, r, true) + if p.key == k then OwnEvents(cfg, s1, p, o.nr, r) else []
  }

  // In expiry order everything exported is flushed, otherwise what is exported at the back.
  predicate FlushesFit(order: SortType, evs: seq<Lived>) {
    forall ev | ev in evs :: if order == ExpiryTime then !ev.FlushBack? else !ev.FlushEvery?
  }

  /** A table at work: at every operation each key's record sees its events, in any order
      among the keys, with flushes at any time; and so at the end of the input. */
  ghost predicate TableRun(order: SortType, cfg: Config, ops: seq<Numbered>, keys: seq<Key>, now: nat,
                           chunks: seq<seq<Lived>>, last: seq<Lived>)
  {
    && |chunks| == |ops| && NoDuplicates(keys)
    && (forall o | o in ops && o.op.Event? :: o.op.p.key in keys)
    && AllPlain(last, |keys|) && (forall j | 0 <= j < |ops| :: AllPlain(chunks[j], |keys|))
    && FlushesFit(order, last) && (forall j | 0 <= j < |ops| :: FlushesFit(order, chunks[j]))
    && (forall j, r | 0 <= j < |ops| && 0 <= r < |keys| :: Sees(cfg, ops, keys[r], j, r, chunks[j]))
    && (forall r | 0 <= r < |keys| :: SeesEnd(cfg, ops, keys[r], now, r, last))
  }

  // Where a key is before operation j.
  ghost function StateAt(cfg: Config, ops: seq<Numbered>, k: Key, j: nat): (s: KeyState)
    requires j <= |ops|
    ensures Proper(s)
  {
    KeyRun(cfg, NO_FLOW, 0, Bare(ops[..j]), k)
  }

  ghost predicate Sees(cfg: Config, ops: seq<Numbered>, k: Key, j: nat, r: nat, chunk: seq<Lived>)
    requires j < |ops|
  {
    Of(chunk, r) == StepEvents(cfg, StateAt(cfg, ops, k, j), WindowAfter(cfg, 0, Bare(ops[..j])), ops[j], k, r)
  }

  ghost predicate SeesEnd(cfg: Config, ops: seq<Numbered>, k: Key, now: nat, r: nat, last: seq<Lived>) {
    var s := StateAt(cfg, ops, k, |ops|);
    Of(last, r) == Closing(s, EofAt(cfg, s, now), r, true)
  }

  ghost predicate IsTable(order: SortType, cfg: Config, ops: seq<Numbered>, keys: seq<Key>, now: nat,
                          t: Pipeline.Table)
  {
    exists chunks, last :: TableRun(order, cfg, ops, keys, now, chunks, last) && t == Flat(chunks) + last
  }

  /** ---- the numbers a key's records should have ---- */

  // Of every record the number of its first packet in start order, of its last one
  // otherwise.
  function Marks(order: SortType, segs: seq<seq<Packet>>, used: seq<nat>): (r: seq<nat>)
    requires |used| == |Flat(segs)|
    ensures |r| == |segs|
  {
    if segs == [] then []
    else
      var n := |segs[0]|;
      [if n == 0 then 0 else if order == StartTime then used[0] else used[n - 1]] + Marks(order, segs[1..], used[n..])
  }

  lemma {:induction false} MarksAppend(order: SortType, segs: seq<seq<Packet>>, used: seq<nat>, seg: seq<Packet>,
                                       more: seq<nat>)
    requires |used| == |Flat(segs)| && |more| == |seg| > 0
    ensures |used + more| == |Flat(segs + [seg])|
    ensures Marks(order, segs + [seg], used + more)
         == Marks(order, segs, used) + [if order == StartTime then more[0] else more[|more| - 1]]
  {
    FlatAppend(segs, seg);
    if segs == [] {
      assert segs + [seg] == [seg] && used + more == more && [seg][1..] == [];
    } else {
      var n := |segs[0]|;
      assert (segs + [seg])[1..] == segs[1..] + [seg] && (used + more)[n..] == used[n..] + more;
      MarksAppend(order, segs[1..], used[n..], seg, more);
    }
  }

  /** ---- one record ---- */

  function CurAll(order: SortType, cur: Option<nat>, evs: seq<Lived>): Option<nat>
    decreases |evs|
  {
    if evs == [] then cur else CurAll(order, CurAfter(order, cur, evs[0]), evs[1..])
  }

  lemma {:induction false} OutInParts(order: SortType, cur: Option<nat>, a: seq<Lived>, b: seq<Lived>)
    ensures RecordOut(order, cur, a + b) == RecordOut(order, cur, a) + RecordOut(order, CurAll(order, cur, a), b)
    ensures CurAll(order, cur, a + b) == CurAll(order, CurAll(order, cur, a), b)
    decreases |a|
  {
    hide CurAfter, OutOf;
    if a == [] {
      assert a + b == b;
    } else {
      assert (a + b)[1..] == a[1..] + b;
      OutInParts(order, CurAfter(order, cur, a[0]), a[1..], b);
    }
  }

  lemma {:induction false} OutOfOne(order: SortType, cur: Option<nat>, ev: Lived)
    ensures RecordOut(order, cur, [ev]) == OutOf(cur, ev) && CurAll(order, cur, [ev]) == CurAfter(order, cur, ev)
    ensures RecordOut(order, cur, []) == [] && CurAll(order, cur, []) == cur
  {
    assert [ev][1..] == [];
  }

  // What the record's events tell is what the key's records so far should have.
  ghost predicate Marked(order: SortType, s: KeyState, out: seq<nat>, cur: Option<nat>, used: seq<nat>) {
    && Proper(s) && |used| == |Flat(Cuts(s))| && (cur.Some? <==> s.live.Some?)
    && out + (if cur.Some? then [cur.value] else []) == Marks(order, Cuts(s), used)
  }

  // The flow ends, or its timers are only looked at.
  lemma {:induction false} CloseMarked(order: SortType, s: KeyState, s': KeyState, r: nat, expiring: bool,
                                       out: seq<nat>, cur: Option<nat>, used: seq<nat>)
    requires Marked(order, s, out, cur, used) && Proper(s') && Cuts(s') == Cuts(s)
    requires s'.live.Some? ==> s.live.Some?
    requires s.live.Some? && s'.live.None? ==> s'.done != []
    ensures var evs := Closing(s, s', r, expiring);
            Marked(order, s', out + RecordOut(order, cur, evs), CurAll(order, cur, evs), used)
  {
    hide Marks, Flat, Cuts;
    var evs := Closing(s, s', r, expiring);
    if evs == [] {
      OutOfOne(order, cur, RecordLife.FlushBack);
      assert out + [] == out;
    } else {
      OutOfOne(order, cur, evs[0]);
      assert (out + [cur.value]) + [] == out + [cur.value];
    }
  }

  lemma {:induction false} CutsStay(cfg: Config, s: KeyState, t: nat, reason: Reason)
    requires Proper(s)
    ensures var s1 := ExpireAt(cfg, s, t);
            && Proper(s1) && Cuts(s1) == Cuts(s) && (s1.live.Some? ==> s.live.Some?)
            && (s.live.Some? && s1.live.None? ==> s1.done != [])
    ensures var s2 := CloseAt(cfg, s, t, reason);
            Cuts(s2) == Cuts(s) && s2.live.None? && (s.live.Some? ==> s2.done != [])
  {
    var s1 := ExpireAt(cfg, s, t);
    if s.live.Some? {
      CloseAtIs(cfg, s, t, reason);
      CloseKeepsCuts(cfg, s, ClosingRecord(cfg, s.live.value, t, reason));
      if s1.live.None? {
        CloseKeepsCuts(cfg, s, s1.done[|s1.done| - 1]);
      }
    }
  }

  // A packet of the key.
  lemma {:induction false} JoinMarked(cfg: Config, order: SortType, s: KeyState, p: Packet, nr: nat, r: nat,
                                      out: seq<nat>, cur: Option<nat>, used: seq<nat>)
    requires order != SortNone && Marked(order, s, out, cur, used)
    ensures var s' := Joined(cfg, s, p);
            var evs := [Arrival(r, p, nr)] + if s'.live.None? then [RecordLife.Ended(r, p.time, false, false)] else [];
            Marked(order, s', out + RecordOut(order, cur, evs), CurAll(order, cur, evs), used + [nr])
  {
    hide Marks, Flat, Ended;
    var s' := Joined(cfg, s, p);
    var first, stamp := Arrival(r, p, nr), Stamped(order, cur, nr);
    JoinedCuts(cfg, s, p);
    if s.live.None? {
      assert out + [] == out;
      MarksAppend(order, Cuts(s), used, [p], [nr]);
    } else {
      GrownMarks(order, s, p, nr, out, cur.value, used);
    }
    assert Marks(order, Cuts(s'), used + [nr]) == out + [stamp.value];
    OutOfOne(order, cur, first);
    if s'.live.None? {
      var end := RecordLife.Ended(r, p.time, false, false);
      OutInParts(order, cur, [first], [end]);
      OutOfOne(order, stamp, end);
      assert [] + [stamp.value] == [stamp.value] && (out + [stamp.value]) + [] == out + [stamp.value];
    } else {
      assert [first] + [] == [first] && out + [] == out;
    }
  }

  lemma {:induction false} GrownMarks(order: SortType, s: KeyState, p: Packet, nr: nat, out: seq<nat>, cur: nat,
                                      used: seq<nat>)
    requires order != SortNone && Marked(order, s, out, Some(cur), used)
    ensures var cuts := RecordsOf(s.done) + [s.live.value.packets + [p]];
            |used + [nr]| == |Flat(cuts)|
            && Marks(order, cuts, used + [nr]) == out + [if order == StartTime then cur else nr]
  {
    hide Flat;
    var before, ps := RecordsOf(s.done), s.live.value.packets;
    FlatAppend(before, ps);
    var n := |Flat(before)|;
    var u1, u2 := used[..n], used[n..];
    assert used == u1 + u2 && used + [nr] == u1 + (u2 + [nr]);
    MarksAppend(order, before, u1, ps, u2);
    MarksAppend(order, before, u1, ps + [p], u2 + [nr]);
    var m := Marks(order, before, u1);
    var x := if order == StartTime then u2[0] else u2[|u2| - 1];
    assert out + [cur] == m + [x];
    assert (out + [cur])[..|out|] == out && (m + [x])[..|m|] == m && (out + [cur])[|out|] == cur;
  }

  lemma {:induction false} MarkedIsProper(order: SortType, s: KeyState, out: seq<nat>, cur: Option<nat>, used: seq<nat>)
    requires Marked(order, s, out, cur, used)
    ensures Proper(s)
  {
  }

  lemma {:induction false} ClosedOrSame(order: SortType, cfg: Config, s: KeyState, w: nat, p: Packet, r: nat,
                                        out: seq<nat>, cur: Option<nat>, used: seq<nat>)
    requires Marked(order, s, out, cur, used)
    ensures Proper(s)
    ensures var s1 := Windowed(cfg, s, w, p); var a := Closing(s, s1, r, true);
            Marked(order, s1, out + RecordOut(order, cur, a), CurAll(order, cur, a), used)
  {
    MarkedIsProper(order, s, out, cur, used);
    CutsStay(cfg, s, p.time, End);
    hide Marked, CloseAt, Cuts, Closing;
    CloseMarked(order, s, Windowed(cfg, s, w, p), r, true, out, cur, used);
  }

  lemma {:induction false} OwnMarked(cfg: Config, order: SortType, s: KeyState, p: Packet, nr: nat, r: nat,
                                     out: seq<nat>, cur: Option<nat>, used: seq<nat>)
    requires order != SortNone && Marked(order, s, out, cur, used) && Proper(s)
    ensures var evs := OwnEvents(cfg, s, p, nr, r);
            Marked(order, EventAt(cfg, s, p), out + RecordOut(order, cur, evs), CurAll(order, cur, evs), used + [nr])
  {
    hide Marked, ExpireAt, Joined, Cuts, Closing, Proper, RecordOut, CurAll, Marks;
    var s1 := ExpireAt(cfg, s, p.time);
    var a := Closing(s, s1, r, false);
    CutsStay(cfg, s, p.time, End);
    CloseMarked(order, s, s1, r, false, out, cur, used);
    var out1, cur1 := out + RecordOut(order, cur, a), CurAll(order, cur, a);
    JoinMarked(cfg, order, s1, p, nr, r, out1, cur1, used);
    var end := if Joined(cfg, s1, p).live.None? then [RecordLife.Ended(r, p.time, false, false)] else [];
    var b := [Arrival(r, p, nr)] + end;
    assert OwnEvents(cfg, s, p, nr, r) == a + b;
    OutInParts(order, cur, a, b);
    assert out1 + RecordOut(order, cur1, b) == out + (RecordOut(order, cur, a) + RecordOut(order, cur1, b));
  }

  // One operation of the table.
  lemma {:induction false} StepMarked(cfg: Config, order: SortType, s: KeyState, w: nat, o: Numbered, k: Key, r: nat,
                                      out: seq<nat>, cur: Option<nat>, used: seq<nat>)
    requires order != SortNone && Marked(order, s, out, cur, used) && Proper(s)
    ensures var evs := StepEvents(cfg, s, w, o, k, r);
            Marked(order, StepAt(cfg, s, w, o.op, k), out + RecordOut(order, cur, evs), CurAll(order, cur, evs),
                   used + if o.op.Event? && o.op.p.key == k then [o.nr] else [])
  {
    hide Marked, CloseAt, ExpireAt, EventAt, Windowed, Cuts, Closing, OwnEvents, RecordOut, CurAll, Proper;
    assert used + [] == used;
    match o.op {
      case Expire(when) =>
        CutsStay(cfg, s, when, End);
        CloseMarked(order, s, ExpireAt(cfg, s, when), r, true, out, cur, used);
      case Event(p) =>
        ClosedOrSame(order, cfg, s, w, p, r, out, cur, used);
        if p.key == k {
          ThenOwn(cfg, order, s, w, p, o.nr, r, out, cur, used);
        } else {
          assert Closing(s, Windowed(cfg, s, w, p), r, true) + [] == Closing(s, Windowed(cfg, s, w, p), r, true);
        }
    }
  }

  lemma {:induction false} ThenOwn(cfg: Config, order: SortType, s: KeyState, w: nat, p: Packet, nr: nat, r: nat,
                                   out: seq<nat>, cur: Option<nat>, used: seq<nat>)
    requires order != SortNone && Proper(s)
    requires var s1 := Windowed(cfg, s, w, p); var a := Closing(s, s1, r, true);
             Marked(order, s1, out + RecordOut(order, cur, a), CurAll(order, cur, a), used)
    ensures var s1 := Windowed(cfg, s, w, p); var evs := Closing(s, s1, r, true) + OwnEvents(cfg, s1, p, nr, r);
            Marked(order, EventAt(cfg, s1, p), out + RecordOut(order, cur, evs), CurAll(order, cur, evs), used + [nr])
  {
    hide Marked, CloseAt, EventAt, Windowed, Cuts, Closing, OwnEvents, RecordOut, CurAll;
    var s1 := Windowed(cfg, s, w, p);
    var a, b := Closing(s, s1, r, true), OwnEvents(cfg, s1, p, nr, r);
    var out1, cur1 := out + RecordOut(order, cur, a), CurAll(order, cur, a);
    OwnMarked(cfg, order, s1, p, nr, r, out1, cur1, used);
    OutInParts(order, cur, a, b);
    assert out1 + RecordOut(order, cur1, b) == out + (RecordOut(order, cur, a) + RecordOut(order, cur1, b));
  }

  /** ---- one table ---- */

  lemma {:induction false} BareStep(ops: seq<Numbered>, j: nat)
    requires j < |ops|
    ensures Bare(ops[..j + 1]) == Bare(ops[..j]) + [ops[j].op]
  {
    if j == 0 {
      assert ops[..1] == [ops[0]] && [ops[0]][1..] == [];
    } else {
      assert ops[..j + 1][1..] == ops[1..][..j] && ops[..j][1..] == ops[1..][..j - 1];
      BareStep(ops[1..], j - 1);
    }
  }

  lemma {:induction false} NumbersStep(ops: seq<Numbered>, j: nat, k: Key)
    requires j < |ops|
    ensures NumbersOf(ops[..j + 1], k)
         == NumbersOf(ops[..j], k) + if ops[j].op.Event? && ops[j].op.p.key == k then [ops[j].nr] else []
  {
    if j == 0 {
      assert ops[..1] == [ops[0]] && [ops[0]][1..] == [];
    } else {
      assert ops[..j + 1][1..] == ops[1..][..j] && ops[..j][1..] == ops[1..][..j - 1];
      NumbersStep(ops[1..], j - 1, k);
    }
  }

  lemma {:induction false} OfAppend(a: seq<Lived>, b: seq<Lived>, r: nat)
    ensures Of(a + b, r) == Of(a, r) + Of(b, r)
  {
    if a == [] {
      assert a + b == b;
    } else {
      assert (a + b)[1..] == a[1..] + b;
      OfAppend(a[1..], b, r);
    }
  }

  // Up to operation j: what record r's events tell.
  lemma {:induction false} PrefixMarked(cfg: Config, order: SortType, ops: seq<Numbered>, keys: seq<Key>, now: nat,
                                        chunks: seq<seq<Lived>>, last: seq<Lived>, r: nat, j: nat)
    requires order != SortNone && TableRun(order, cfg, ops, keys, now, chunks, last)
    requires j <= |ops| && r < |keys|
    ensures var evs := Of(Flat(chunks[..j]), r);
            Marked(order, StateAt(cfg, ops, keys[r], j), RecordOut(order, None, evs), CurAll(order, None, evs),
                   NumbersOf(ops[..j], keys[r]))
  {
    hide Marked, StepEvents, StepAt, RecordOut, CurAll, Of, Flat;
    if j == 0 {
      NothingMarked(order);
      assert chunks[..0] == [] && ops[..0] == [];
    } else {
      var i, k := j - 1, keys[r];
      PrefixMarked(cfg, order, ops, keys, now, chunks, last, r, i);
      var evs, chunk, s := Of(Flat(chunks[..i]), r), chunks[i], StateAt(cfg, ops, k, i);
      assert Sees(cfg, ops, k, i, r, chunk);
      var w := WindowAfter(cfg, 0, Bare(ops[..i]));
      StepMarked(cfg, order, s, w, ops[i], k, r, RecordOut(order, None, evs), CurAll(order, None, evs),
                 NumbersOf(ops[..i], k));
      BareStep(ops, i);
      NumbersStep(ops, i, k);
      RunStep(cfg, NO_FLOW, 0, Bare(ops[..i]), ops[i].op, k);
      assert chunks[..j] == chunks[..i] + [chunk];
      FlatAppend(chunks[..i], chunk);
      OfAppend(Flat(chunks[..i]), chunk, r);
      OutInParts(order, None, evs, Of(chunk, r));
    }
  }

  lemma {:induction false} NothingMarked(order: SortType)
    ensures Of(Flat([]), 0) == [] && forall r :: Of(Flat([]), r) == []
    ensures RecordOut(order, None, []) == [] && CurAll(order, None, []) == None
    ensures Marked(order, NO_FLOW, [], None, []) && forall k: Key :: NumbersOf([], k) == []
  {
  }

  // The records of a key at the end of the input.
  ghost function KeyRecords(cfg: Config, ops: seq<Op>, k: Key, now: nat): seq<seq<Packet>> {
    RecordsOf(EofAt(cfg, KeyRun(cfg, NO_FLOW, 0, ops, k), now).done)
  }

  // The numbers with which they should be exported.
  ghost function KeyMarks(order: SortType, cfg: Config, ops: seq<Numbered>, k: Key, now: nat): seq<nat>
    requires Monotone(cfg, Bare(ops), START)
  {
    EofExportsAll(cfg, Bare(ops), k, now);
    Marks(order, KeyRecords(cfg, Bare(ops), k, now), NumbersOf(ops, k))
  }

  lemma {:induction false} RecordMarked(cfg: Config, order: SortType, ops: seq<Numbered>, keys: seq<Key>, now: nat,
                                        chunks: seq<seq<Lived>>, last: seq<Lived>, r: nat)
    requires order != SortNone && TableRun(order, cfg, ops, keys, now, chunks, last)
    requires r < |keys| && Monotone(cfg, Bare(ops), START)
    ensures RecordOut(order, None, Of(Flat(chunks) + last, r)) == KeyMarks(order, cfg, ops, keys[r], now)
  {
    hide RecordOut, CurAll, Of, Flat, Marks, CloseAt, KeyRun, Monotone, Closing, Cuts;
    var k := keys[r];
    PrefixMarked(cfg, order, ops, keys, now, chunks, last, r, |ops|);
    assert chunks[..|ops|] == chunks && ops[..|ops|] == ops;
    var evs, s := Of(Flat(chunks), r), StateAt(cfg, ops, k, |ops|);
    assert SeesEnd(cfg, ops, k, now, r, last);
    var out, cur := RecordOut(order, None, evs), CurAll(order, None, evs);
    CutsStay(cfg, s, now, ForcedEnd);
    CloseMarked(order, s, EofAt(cfg, s, now), r, true, out, cur, NumbersOf(ops, k));
    CutsOfClosed(EofAt(cfg, s, now));
    OfAppend(Flat(chunks), last, r);
    OutInParts(order, None, evs, Of(last, r));
    var all := RecordOut(order, None, Of(Flat(chunks) + last, r));
    assert all + [] == all;
    EofExportsAll(cfg, Bare(ops), k, now);
  }

  // ... of all keys.
  ghost function AllMarks(order: SortType, cfg: Config, ops: seq<Numbered>, keys: seq<Key>, now: nat): multiset<nat>
    requires Monotone(cfg, Bare(ops), START)
  {
    if keys == [] then multiset{}
    else AllMarks(order, cfg, ops, keys[..|keys| - 1], now)
         + multiset(KeyMarks(order, cfg, ops, keys[|keys| - 1], now))
  }

  lemma {:induction false} TotalMarks(cfg: Config, order: SortType, ops: seq<Numbered>, keys: seq<Key>, now: nat,
                                      chunks: seq<seq<Lived>>, last: seq<Lived>, n: nat)
    requires order != SortNone && TableRun(order, cfg, ops, keys, now, chunks, last)
    requires n <= |keys| && Monotone(cfg, Bare(ops), START)
    ensures Total(order, Nobodies(|keys|), Flat(chunks) + last, n) == AllMarks(order, cfg, ops, keys[..n], now)
  {
    hide RecordOut, Of, Flat, KeyMarks, Monotone, TableRun;
    if n > 0 {
      TotalMarks(cfg, order, ops, keys, now, chunks, last, n - 1);
      RecordMarked(cfg, order, ops, keys, now, chunks, last, n - 1);
      assert keys[..n][..n - 1] == keys[..n - 1];
    }
  }

  /** ---- packet numbers rise ---- */

  ghost predicate NumbersRise(ops: seq<Numbered>, from: nat) {
    ops == [] || (from <= ops[0].nr && NumbersRise(ops[1..], ops[0].nr))
  }

  // All packets of these events have this number.
  ghost predicate AllNumber(evs: seq<Lived>, nr: nat) {
    forall ev | ev in evs :: ev.Packet? ==> ev.nr == nr
  }

  lemma {:induction false} InOf(evs: seq<Lived>, ev: Lived, n: nat)
    requires ev in evs && AllPlain(evs, n) && ev.Packet?
    ensures ev.r < n && ev in Of(evs, ev.r)
  {
    if ev != evs[0] {
      InOf(evs[1..], ev, n);
    }
  }

  lemma {:induction false} StepNumber(cfg: Config, s: KeyState, w: nat, o: Numbered, k: Key, r: nat)
    requires Proper(s)
    ensures AllNumber(StepEvents(cfg, s, w, o, k, r), o.nr)
  {
    hide CloseAt, ExpireAt, Windowed, Joined;
  }

  lemma {:induction false} ChunkNumber(order: SortType, cfg: Config, ops: seq<Numbered>, keys: seq<Key>, now: nat,
                                       chunks: seq<seq<Lived>>, last: seq<Lived>, j: nat)
    requires TableRun(order, cfg, ops, keys, now, chunks, last) && j < |ops|
    ensures AllNumber(chunks[j], ops[j].nr)
  {
    hide StepEvents, Of, StateAt;
    forall ev | ev in chunks[j] && ev.Packet? ensures ev.nr == ops[j].nr {
      InOf(chunks[j], ev, |keys|);
      assert Sees(cfg, ops, keys[ev.r], j, ev.r, chunks[j]);
      StepNumber(cfg, StateAt(cfg, ops, keys[ev.r], j), WindowAfter(cfg, 0, Bare(ops[..j])), ops[j], keys[ev.r], ev.r);
    }
  }

  lemma {:induction false} EndHasNoPacket(cfg: Config, ops: seq<Numbered>, k: Key, now: nat, r: nat, last: seq<Lived>)
    ensures SeesEnd(cfg, ops, k, now, r, last) ==> forall ev | ev in Of(last, r) :: !ev.Packet?
  {
    hide Of, StateAt, CloseAt;
  }

  lemma {:induction false} LastNumber(order: SortType, cfg: Config, ops: seq<Numbered>, keys: seq<Key>, now: nat,
                                      chunks: seq<seq<Lived>>, last: seq<Lived>, nr: nat)
    requires TableRun(order, cfg, ops, keys, now, chunks, last)
    ensures AllNumber(last, nr)
  {
    hide Of, SeesEnd;
    forall r: nat | r < |keys| ensures forall ev | ev in Of(last, r) :: !ev.Packet? {
      EndHasNoPacket(cfg, ops, keys[r], now, r, last);
      assert SeesEnd(cfg, ops, keys[r], now, r, last);
    }
    forall ev | ev in last ensures !ev.Packet? {
      if ev.Packet? {
        InOf(last, ev, |keys|);
      }
    }
  }

  lemma {:induction false} SequenceAppend(a: seq<Lived>, b: seq<Lived>, from: nat, nr: nat, n: nat)
    requires AllPlain(a, n) && AllNumber(a, nr) && from <= nr && forall ev | ev in a :: !ev.FlushEvery?
    requires RecordLife.InSequence(b, nr)
    ensures RecordLife.InSequence(a + b, from)
  {
    if a == [] {
      assert a + b == b;
      SequenceWidens(b, nr, from);
    } else {
      assert (a + b)[1..] == a[1..] + b;
      assert a[0] in a;
      SequenceAppend(a[1..], b, if a[0].Packet? then a[0].nr else from, nr, n);
    }
  }

  lemma {:induction false} SequenceWidens(evs: seq<Lived>, from: nat, lower: nat)
    requires RecordLife.InSequence(evs, from) && lower <= from
    ensures RecordLife.InSequence(evs, lower)
  {
    if evs != [] && !evs[0].Packet? {
      SequenceWidens(evs[1..], from, lower);
    }
  }

  // From operation j on.
  lemma {:induction false} RunInSequence(order: SortType, cfg: Config, ops: seq<Numbered>, keys: seq<Key>, now: nat,
                                         chunks: seq<seq<Lived>>, last: seq<Lived>, j: nat, from: nat)
    requires TableRun(order, cfg, ops, keys, now, chunks, last) && j <= |ops| && NumbersRise(ops[j..], from)
    requires order != ExpiryTime
    ensures RecordLife.InSequence(Flat(chunks[j..]) + last, from)
    decreases |ops| - j
  {
    hide Flat, Sees, SeesEnd, AllNumber;
    if j == |ops| {
      LastNumber(order, cfg, ops, keys, now, chunks, last, from);
      assert last + [] == last;
      SequenceAppend(last, [], from, from, |keys|);
      NothingFlat();
      assert chunks[j..] == [] && [] + last == last;
    } else {
      var nr := ops[j].nr;
      assert ops[j..][1..] == ops[j + 1..] && chunks[j..] == [chunks[j]] + chunks[j + 1..];
      RunInSequence(order, cfg, ops, keys, now, chunks, last, j + 1, nr);
      ChunkNumber(order, cfg, ops, keys, now, chunks, last, j);
      FlatCons(chunks[j], chunks[j + 1..]);
      SequenceAppend(chunks[j], Flat(chunks[j + 1..]) + last, from, nr, |keys|);
      assert (chunks[j] + Flat(chunks[j + 1..])) + last == chunks[j] + (Flat(chunks[j + 1..]) + last);
    }
  }

  lemma {:induction false} NothingFlat()
    ensures Flat<Lived>([]) == []
  {
  }

  lemma {:induction false} FlatCons<T>(m: seq<T>, more: seq<seq<T>>)
    ensures Flat([m] + more) == m + Flat(more)
  {
    assert ([m] + more)[1..] == more;
  }

  lemma {:induction false} PlainAppend(a: seq<Lived>, b: seq<Lived>, n: nat)
    requires AllPlain(a, n) && AllPlain(b, n)
    ensures AllPlain(a + b, n)
  {
    if a == [] {
      assert a + b == b;
    } else {
      assert (a + b)[1..] == a[1..] + b;
      PlainAppend(a[1..], b, n);
    }
  }

  lemma {:induction false} RunIsPlain(chunks: seq<seq<Lived>>, last: seq<Lived>, n: nat)
    requires AllPlain(last, n) && forall j | 0 <= j < |chunks| :: AllPlain(chunks[j], n)
    ensures AllPlain(Flat(chunks) + last, n)
  {
    if chunks == [] {
      assert [] + last == last;
    } else {
      RunIsPlain(chunks[1..], last, n);
      PlainAppend(chunks[0], Flat(chunks[1..]) + last, n);
      assert (chunks[0] + Flat(chunks[1..])) + last == chunks[0] + (Flat(chunks[1..]) + last);
    }
  }

  /** One table: its flows' records are flushed once each, with the numbers of their first
      packets in start order and of their last ones otherwise; however it works through its
      keys, and whenever it flushes. In start and stop order its packets are in sequence. */
  lemma {:induction false} TableFlushes(order: SortType, cfg: Config, ops: seq<Numbered>, keys: seq<Key>, now: nat,
                                        t: Pipeline.Table, recordID: int)
    requires order != SortNone
    requires IsTable(order, cfg, ops, keys, now, t) && Monotone(cfg, Bare(ops), START) && NumbersRise(ops, 0)
    ensures order != ExpiryTime ==> RecordLife.InSequence(t, 0)
    ensures Stamps(Pipeline.Flushed(order, t, recordID)) == AllMarks(order, cfg, ops, keys, now)
  {
    hide Flat, Total, AllMarks, Monotone, NumbersRise, Stamps;
    var chunks, last :| TableRun(order, cfg, ops, keys, now, chunks, last) && t == Flat(chunks) + last;
    assert ops[0..] == ops && chunks[0..] == chunks && keys[..|keys|] == keys;
    if order != ExpiryTime {
      RunInSequence(order, cfg, ops, keys, now, chunks, last, 0, 0);
    }
    RunIsPlain(chunks, last, |keys|);
    TableStamps(order, t, |keys|, recordID);
    TotalMarks(cfg, order, ops, keys, now, chunks, last, |keys|);
  }

  /** ---- n tables ---- */

  // What table i gets, numbers included.
  function MineNumbered(hash: Key -> nat, n: nat, ops: seq<Numbered>, i: nat): seq<Numbered>
    requires n > 0
  {
    if ops == [] then []
    else (if Takes(hash, n, ops[0].op, i) then [ops[0]] else []) + MineNumbered(hash, n, ops[1..], i)
  }

  lemma {:induction false} MineIsBare(hash: Key -> nat, n: nat, ops: seq<Numbered>, i: nat)
    requires n > 0
    ensures Bare(MineNumbered(hash, n, ops, i)) == Mine(hash, n, Bare(ops), i)
    ensures forall o | o in MineNumbered(hash, n, ops, i) :: o in ops
  {
    if ops != [] {
      hide Takes;
      MineIsBare(hash, n, ops[1..], i);
      var rest := MineNumbered(hash, n, ops[1..], i);
      assert ([ops[0]] + rest)[1..] == rest && [] + rest == rest;
      assert Bare(ops)[1..] == Bare(ops[1..]) && [] + Bare(rest) == Bare(rest);
    }
  }

  lemma {:induction false} MineRises(hash: Key -> nat, n: nat, ops: seq<Numbered>, i: nat, from: nat)
    requires n > 0 && NumbersRise(ops, from)
    ensures NumbersRise(MineNumbered(hash, n, ops, i), from)
  {
    if ops != [] {
      hide Takes;
      MineRises(hash, n, ops[1..], i, ops[0].nr);
      var rest := MineNumbered(hash, n, ops[1..], i);
      assert ([ops[0]] + rest)[1..] == rest && [] + rest == rest;
    }
  }

  lemma {:induction false} MineNumbers(hash: Key -> nat, n: nat, ops: seq<Numbered>, k: Key, i: nat)
    requires n > 0
    ensures NumbersOf(MineNumbered(hash, n, ops, i), k) == if i == Home(hash, n, k) then NumbersOf(ops, k) else []
  {
    if ops != [] {
      MineNumbers(hash, n, ops[1..], k, i);
      var rest := MineNumbered(hash, n, ops[1..], i);
      assert ([ops[0]] + rest)[1..] == rest && [] + rest == rest;
      assert [] + NumbersOf(rest, k) == NumbersOf(rest, k) && [] + NumbersOf(ops[1..], k) == NumbersOf(ops[1..], k);
    }
  }

  // A key's records leave its own table with the numbers one table would give them.
  lemma {:induction false} MineMarks(order: SortType, cfg: Config, hash: Key -> nat, n: nat, ops: seq<Numbered>, k: Key,
                                     i: nat, now: nat)
    requires n > 0 && Monotone(cfg, Bare(ops), START)
    ensures var mine := MineNumbered(hash, n, ops, i);
            && Monotone(cfg, Bare(mine), START)
            && KeyMarks(order, cfg, mine, k, now)
               == if i == Home(hash, n, k) then KeyMarks(order, cfg, ops, k, now) else []
  {
    hide Marks, KeyRun, CloseAt, Monotone, Mine, MineNumbered, Bare, NumbersOf, Cuts;
    var mine := MineNumbered(hash, n, ops, i);
    MineIsBare(hash, n, ops, i);
    MineNumbers(hash, n, ops, k, i);
    MineMonotone(cfg, hash, n, Bare(ops), START, START, i);
    EofExportsAll(cfg, Bare(mine), k, now);
    EofExportsAll(cfg, Bare(ops), k, now);
    if i == Home(hash, n, k) {
      TablesCutLikeOne(cfg, hash, n, Bare(ops), k);
      EofKeepsCuts(cfg, Bare(mine), k, now);
      EofKeepsCuts(cfg, Bare(ops), k, now);
    } else {
      OtherTables(cfg, 0, hash, n, Bare(ops), i, k);
      NothingCloses(cfg, now);
      NothingMarks(order);
    }
  }

  lemma {:induction false} NothingCloses(cfg: Config, now: nat)
    ensures RecordsOf(EofAt(cfg, NO_FLOW, now).done) == []
  {
  }

  lemma {:induction false} NothingMarks(order: SortType)
    ensures |Flat<Packet>([])| == 0 && Marks(order, [], []) == []
  {
  }

  // What a table gets of an input whose times and windows are in order is so, too.
  lemma {:induction false} MineMonotone(cfg: Config, hash: Key -> nat, n: nat, ops: seq<Op>, c: Clock, d: Clock, i: nat)
    requires n > 0 && Monotone(cfg, ops, c) && Behind(cfg, d, c)
    ensures Monotone(cfg, Mine(hash, n, ops, i), d)
    decreases |ops|
  {
    if ops != [] {
      var op := ops[0];
      var rest := Mine(hash, n, ops[1..], i);
      assert ([op] + rest)[1..] == rest && [] + rest == rest;
      if Takes(hash, n, op, i) {
        MineMonotone(cfg, hash, n, ops[1..], Tick(cfg, op, c), Tick(cfg, op, d), i);
      } else {
        MineMonotone(cfg, hash, n, ops[1..], Tick(cfg, op, c), d, i);
      }
    }
  }

  // The numbers of all tables together.
  ghost function TablesMarks(order: SortType, cfg: Config, hash: Key -> nat, n: nat, ops: seq<Numbered>, keys: seq<Key>,
                             now: nat, m: nat): multiset<nat>
    requires n > 0 && Monotone(cfg, Bare(ops), START)
  {
    if m == 0 then multiset{}
    else
      MineIsBare(hash, n, ops, m - 1);
      MineMonotone(cfg, hash, n, Bare(ops), START, START, m - 1);
      TablesMarks(order, cfg, hash, n, ops, keys, now, m - 1)
      + AllMarks(order, cfg, MineNumbered(hash, n, ops, m - 1), keys, now)
  }

  // The keys of the first m tables.
  ghost function HomeMarks(order: SortType, cfg: Config, hash: Key -> nat, n: nat, ops: seq<Numbered>, keys: seq<Key>,
                           now: nat, m: nat): multiset<nat>
    requires n > 0 && Monotone(cfg, Bare(ops), START)
  {
    if keys == [] then multiset{}
    else
      HomeMarks(order, cfg, hash, n, ops, keys[..|keys| - 1], now, m)
      + var k := keys[|keys| - 1];
        if Home(hash, n, k) < m then multiset(KeyMarks(order, cfg, ops, k, now)) else multiset{}
  }

  lemma {:induction false} HomeStep(order: SortType, cfg: Config, hash: Key -> nat, n: nat, ops: seq<Numbered>,
                                    keys: seq<Key>, now: nat, m: nat)
    requires n > 0 && Monotone(cfg, Bare(ops), START)
    ensures Monotone(cfg, Bare(MineNumbered(hash, n, ops, m)), START)
    ensures HomeMarks(order, cfg, hash, n, ops, keys, now, m + 1)
         == HomeMarks(order, cfg, hash, n, ops, keys, now, m)
            + AllMarks(order, cfg, MineNumbered(hash, n, ops, m), keys, now)
  {
    hide KeyMarks, Monotone, MineNumbered, Bare, Mine;
    MineIsBare(hash, n, ops, m);
    MineMonotone(cfg, hash, n, Bare(ops), START, START, m);
    if keys != [] {
      HomeStep(order, cfg, hash, n, ops, keys[..|keys| - 1], now, m);
      MineMarks(order, cfg, hash, n, ops, keys[|keys| - 1], m, now);
      var none: seq<nat> := [];
      assert multiset(none) == multiset{};
    }
  }

  lemma {:induction false} NoHome(order: SortType, cfg: Config, hash: Key -> nat, n: nat, ops: seq<Numbered>,
                                  keys: seq<Key>, now: nat)
    requires n > 0 && Monotone(cfg, Bare(ops), START)
    ensures HomeMarks(order, cfg, hash, n, ops, keys, now, 0) == multiset{}
    ensures HomeMarks(order, cfg, hash, n, ops, keys, now, n) == AllMarks(order, cfg, ops, keys, now)
  {
    hide KeyMarks, Monotone, Bare;
    if keys != [] {
      NoHome(order, cfg, hash, n, ops, keys[..|keys| - 1], now);
    }
  }

  // Distributing the keys over tables changes nothing.
  lemma {:induction false} TablesTogether(order: SortType, cfg: Config, hash: Key -> nat, n: nat, ops: seq<Numbered>,
                                          keys: seq<Key>, now: nat, m: nat)
    requires n > 0 && Monotone(cfg, Bare(ops), START)
    ensures TablesMarks(order, cfg, hash, n, ops, keys, now, m) == HomeMarks(order, cfg, hash, n, ops, keys, now, m)
  {
    hide AllMarks, HomeMarks, Monotone, MineNumbered, Bare, Mine;
    if m == 0 {
      NoHome(order, cfg, hash, n, ops, keys, now);
    } else {
      TablesTogether(order, cfg, hash, n, ops, keys, now, m - 1);
      HomeStep(order, cfg, hash, n, ops, keys, now, m - 1);
    }
  }

  /** ---- behind the mergers ---- */

  ghost function Together(order: SortType, tables: seq<Pipeline.Table>, recordID: int): seq<Item<nat>> {
    if tables == [] then []
    else Pipeline.Flushed(order, tables[0], recordID) + Together(order, tables[1..], recordID)
  }

  lemma {:induction false} TogetherIsAll(order: SortType, tables: seq<Pipeline.Table>, recordID: int)
    ensures multiset(Together(order, tables, recordID)) == Pipeline.AllFlushed(order, tables, recordID)
  {
    hide Pipeline.Flushed;
    if tables != [] {
      TogetherIsAll(order, tables[1..], recordID);
    }
  }

  lemma {:induction false} TogetherStep(order: SortType, tables: seq<Pipeline.Table>, t: Pipeline.Table, recordID: int)
    ensures Stamps(Together(order, tables + [t], recordID))
         == Stamps(Together(order, tables, recordID)) + Stamps(Pipeline.Flushed(order, t, recordID))
  {
    hide Pipeline.Flushed, ExportLog.Seen;
    var f := Pipeline.Flushed(order, t, recordID);
    if tables == [] {
      assert tables + [t] == [t] && [t][1..] == [] && f + [] == f;
      SeenNone();
    } else {
      assert (tables + [t])[1..] == tables[1..] + [t];
      TogetherStep(order, tables[1..], t, recordID);
      var first := Pipeline.Flushed(order, tables[0], recordID);
      ExportLog.SeenAppend(first, Together(order, tables[1..], recordID), NumberOf);
      ExportLog.SeenAppend(first, Together(order, tables[1..] + [t], recordID), NumberOf);
    }
  }

  lemma {:induction false} SeenNone()
    ensures Stamps([]) == multiset{}
  {
  }

  // One table more.
  lemma {:induction false} NextFlushes(order: SortType, cfg: Config, hash: Key -> nat, n: nat, ops: seq<Numbered>,
                                       keys: seq<Key>, now: nat, t: Pipeline.Table, recordID: int, i: nat)
    requires (order == StartTime || order == StopTime) && n > 0
    requires Monotone(cfg, Bare(ops), START) && NumbersRise(ops, 0)
    requires IsTable(order, cfg, MineNumbered(hash, n, ops, i), keys, now, t)
    ensures RecordLife.InSequence(t, 0)
    ensures TablesMarks(order, cfg, hash, n, ops, keys, now, i + 1)
         == TablesMarks(order, cfg, hash, n, ops, keys, now, i) + Stamps(Pipeline.Flushed(order, t, recordID))
  {
    hide IsTable, AllMarks, Monotone, NumbersRise, MineNumbered, Bare, Mine, RecordLife.InSequence, Stamps,
      Pipeline.Flushed;
    MineIsBare(hash, n, ops, i);
    MineMonotone(cfg, hash, n, Bare(ops), START, START, i);
    MineRises(hash, n, ops, i, 0);
    TableFlushes(order, cfg, MineNumbered(hash, n, ops, i), keys, now, t, recordID);
  }

  lemma {:induction false} NoTables(order: SortType, cfg: Config, hash: Key -> nat, n: nat, ops: seq<Numbered>,
                                    keys: seq<Key>, now: nat, recordID: int)
    requires n > 0 && Monotone(cfg, Bare(ops), START)
    ensures Stamps(Together(order, [], recordID)) == TablesMarks(order, cfg, hash, n, ops, keys, now, 0)
  {
  }

  lemma {:induction false} TablesFlush(order: SortType, cfg: Config, hash: Key -> nat, n: nat, ops: seq<Numbered>,
                                       keys: seq<Key>, now: nat, tables: seq<Pipeline.Table>, recordID: int, m: nat)
    requires (order == StartTime || order == StopTime) && n > 0 && m <= n == |tables|
    requires Monotone(cfg, Bare(ops), START) && NumbersRise(ops, 0)
    requires forall i | 0 <= i < n :: IsTable(order, cfg, MineNumbered(hash, n, ops, i), keys, now, tables[i])
    ensures Stamps(Together(order, tables[..m], recordID)) == TablesMarks(order, cfg, hash, n, ops, keys, now, m)
  {
    hide IsTable, TablesMarks, Together, Stamps, Monotone, NumbersRise, MineNumbered, RecordLife.InSequence,
      Pipeline.Flushed, Bare;
    if m == 0 {
      NoTables(order, cfg, hash, n, ops, keys, now, recordID);
      assert tables[..0] == [];
    } else {
      var i := m - 1;
      TablesFlush(order, cfg, hash, n, ops, keys, now, tables, recordID, i);
      NextFlushes(order, cfg, hash, n, ops, keys, now, tables[i], recordID, i);
      assert tables[..m] == tables[..i] + [tables[i]];
      TogetherStep(order, tables[..i], tables[i], recordID);
    }
  }

  /** From packets to the consumer, in start or stop order: n tables get the packets of an
      input by the hash of their keys, work through their keys in any order and flush at
      any time, and the mergers take any steps. When all has come to a stop, the consumer
      has received, in order, one record for every record of every key, with the number of
      its first or last packet. A key's records are the specification's exactly if no tie hits. */
  lemma {:induction false} RecordsReachTheConsumer(order: SortType, cfg: Config, hash: Key -> nat, n: nat,
                                                   ops: seq<Numbered>, keys: seq<Key>, now: nat,
                                                   tables: seq<Pipeline.Table>, recordID: int,
                                                   run: seq<MergeNetwork.System>)
    requires (order == StartTime || order == StopTime) && 0 < n == |tables|
    requires Monotone(cfg, Bare(ops), START) && NumbersRise(ops, 0)
    requires forall i | 0 <= i < n :: IsTable(order, cfg, MineNumbered(hash, n, ops, i), keys, now, tables[i])
    requires MergeNetwork.IsRun(order, run) && MergeNetwork.IsStuck(order, run[|run| - 1])
    requires run[0] == MergeNetwork.System(MergeNetwork.MergeTree(Pipeline.Sources(order, tables, recordID)), [])
    ensures Sorted(order, run[|run| - 1].received)
    ensures Stamps(run[|run| - 1].received) == AllMarks(order, cfg, ops, keys, now)
    ensures forall k :: KeyRecords(cfg, Bare(ops), k, now) == Segments(cfg, PacketsOf(Bare(ops), k))
                   <==> NoTieHits(cfg, NO_FLOW, 0, Bare(ops), k)
  {
    hide IsTable, AllMarks, TablesMarks, HomeMarks, Monotone, NumbersRise, Bare, RecordLife.InSequence, Sorted,
      ExportLog.Seen, Together, KeyRun, CloseAt, MergeNetwork.IsStuck, Pipeline.Sources, Segments, NoTieHits,
      Pipeline.AllFlushed;
    TablesFlush(order, cfg, hash, n, ops, keys, now, tables, recordID, n);
    assert tables[..n] == tables;
    forall i | 0 <= i < n ensures RecordLife.InSequence(tables[i], 0) {
      NextFlushes(order, cfg, hash, n, ops, keys, now, tables[i], recordID, i);
    }
    Pipeline.EverythingArrivesInOrder(order, tables, recordID, run);
    TogetherIsAll(order, tables, recordID);
    ExportLog.SeenSame(run[|run| - 1].received, Together(order, tables, recordID), NumberOf);
    TablesTogether(order, cfg, hash, n, ops, keys, now, n);
    NoHome(order, cfg, hash, n, ops, keys, now);
    forall k
      ensures KeyRecords(cfg, Bare(ops), k, now) == Segments(cfg, PacketsOf(Bare(ops), k))
         <==> NoTieHits(cfg, NO_FLOW, 0, Bare(ops), k)
    {
      MeetsSpecIff(cfg, Bare(ops), k);
      EofKeepsCuts(cfg, Bare(ops), k, now);
    }
  }

  /** ---- a key's records come in order ---- */

  ghost predicate Ascending(s: seq<nat>) {
    forall i, j | 0 <= i < j < |s| :: s[i] < s[j]
  }

  /** If packets are numbered one after the other, the numbers of a key's records ascend,
      and the order in which they arrive is the order of the records. */
  lemma {:induction false} MarksAscend(order: SortType, segs: seq<seq<Packet>>, used: seq<nat>)
    requires |used| == |Flat(segs)| && Ascending(used) && forall i | 0 <= i < |segs| :: segs[i] != []
    ensures Ascending(Marks(order, segs, used))
    ensures forall i | 0 <= i < |segs| :: Marks(order, segs, used)[i] in used
  {
    hide Flat, Ascending;
    if segs != [] {
      var n := |segs[0]|;
      assert segs[0] != [];
      FlatCons(segs[0], segs[1..]);
      assert [segs[0]] + segs[1..] == segs;
      AscendingParts(used, n);
      MarksAscend(order, segs[1..], used[n..]);
      AscendingCons(used[if order == StartTime then 0 else n - 1], Marks(order, segs[1..], used[n..]));
    } else {
      NothingAscends();
    }
  }

  lemma {:induction false} NothingAscends()
    ensures Ascending([])
  {
  }

  lemma {:induction false} AscendingParts(used: seq<nat>, n: nat)
    requires Ascending(used) && 0 < n <= |used|
    ensures Ascending(used[n..]) && forall y | y in used[n..] :: y in used && used[0] < y && used[n - 1] < y
  {
    forall j | 0 <= j < |used[n..]| ensures used[n..][j] == used[n + j] {}
  }

  lemma {:induction false} AscendingCons(x: nat, rest: seq<nat>)
    requires Ascending(rest) && forall i | 0 <= i < |rest| :: x < rest[i]
    ensures Ascending([x] + rest)
  {
  }

  /** ---- there are such tables ---- */

  // One after the other.
  ghost function Round(cfg: Config, ops: seq<Numbered>, keys: seq<Key>, j: nat, n: nat): seq<Lived>
    requires j < |ops| && n <= |keys|
  {
    if n == 0 then []
    else
      var k := keys[n - 1];
      Round(cfg, ops, keys, j, n - 1)
      + StepEvents(cfg, StateAt(cfg, ops, k, j), WindowAfter(cfg, 0, Bare(ops[..j])), ops[j], k, n - 1)
  }

  ghost function LastRound(cfg: Config, ops: seq<Numbered>, keys: seq<Key>, now: nat, n: nat): seq<Lived>
    requires n <= |keys|
  {
    if n == 0 then []
    else
      var s := StateAt(cfg, ops, keys[n - 1], |ops|);
      LastRound(cfg, ops, keys, now, n - 1) + Closing(s, EofAt(cfg, s, now), n - 1, true)
  }

  // Events of one record only, and no more than such.
  ghost predicate Belong(evs: seq<Lived>, r: nat) {
    forall ev | ev in evs :: Plain(ev) && !IsFlush(ev) && RecordLife.Whose(ev) == r
  }

  lemma {:induction false} BelongIs(evs: seq<Lived>, r: nat, n: nat)
    requires Belong(evs, r) && r < n
    ensures AllPlain(evs, n) && forall q: nat :: Of(evs, q) == if q == r then evs else []
  {
    if evs != [] {
      assert evs[0] in evs;
      BelongIs(evs[1..], r, n);
      assert [evs[0]] + evs[1..] == evs;
    }
  }

  lemma {:induction false} StepBelongs(cfg: Config, s: KeyState, w: nat, o: Numbered, k: Key, r: nat)
    requires Proper(s)
    ensures Belong(StepEvents(cfg, s, w, o, k, r), r)
  {
    hide CloseAt, ExpireAt, Windowed, Joined;
  }

  lemma {:induction false} RoundIs(cfg: Config, ops: seq<Numbered>, keys: seq<Key>, j: nat, n: nat)
    requires j < |ops| && n <= |keys|
    ensures AllPlain(Round(cfg, ops, keys, j, n), |keys|)
    ensures forall ev | ev in Round(cfg, ops, keys, j, n) :: !IsFlush(ev)
    ensures forall r: nat | r < n :: Sees(cfg, ops, keys[r], j, r, Round(cfg, ops, keys, j, n))
    ensures forall r: nat | r >= n :: Of(Round(cfg, ops, keys, j, n), r) == []
  {
    hide StepEvents, StateAt, AllPlain, Of;
    NothingPlain(|keys|);
    if n > 0 {
      var i, k := n - 1, keys[n - 1];
      RoundIs(cfg, ops, keys, j, i);
      var before := Round(cfg, ops, keys, j, i);
      var own := StepEvents(cfg, StateAt(cfg, ops, k, j), WindowAfter(cfg, 0, Bare(ops[..j])), ops[j], k, i);
      StepBelongs(cfg, StateAt(cfg, ops, k, j), WindowAfter(cfg, 0, Bare(ops[..j])), ops[j], k, i);
      BelongIs(own, i, |keys|);
      PlainAppend(before, own, |keys|);
      forall r: nat ensures Of(before + own, r) == Of(before, r) + Of(own, r) {
        OfAppend(before, own, r);
      }
      assert [] + own == own;
      forall r: nat | r < n ensures Sees(cfg, ops, keys[r], j, r, before + own) {
        if r < i {
          assert Sees(cfg, ops, keys[r], j, r, before);
          assert Of(before, r) + [] == Of(before, r);
        }
      }
    }
  }

  lemma {:induction false} NothingPlain(n: nat)
    ensures AllPlain([], n) && forall r :: Of([], r) == []
  {
  }

  lemma {:induction false} LastRoundIs(cfg: Config, ops: seq<Numbered>, keys: seq<Key>, now: nat, n: nat)
    requires n <= |keys|
    ensures AllPlain(LastRound(cfg, ops, keys, now, n), |keys|)
    ensures forall ev | ev in LastRound(cfg, ops, keys, now, n) :: !IsFlush(ev)
    ensures forall r: nat | r < n :: SeesEnd(cfg, ops, keys[r], now, r, LastRound(cfg, ops, keys, now, n))
    ensures forall r: nat | r >= n :: Of(LastRound(cfg, ops, keys, now, n), r) == []
  {
    hide StateAt, AllPlain, Of, CloseAt;
    NothingPlain(|keys|);
    if n > 0 {
      var i, s := n - 1, StateAt(cfg, ops, keys[n - 1], |ops|);
      LastRoundIs(cfg, ops, keys, now, i);
      var before, own := LastRound(cfg, ops, keys, now, i), Closing(s, EofAt(cfg, s, now), i, true);
      BelongIs(own, i, |keys|);
      PlainAppend(before, own, |keys|);
      forall r: nat ensures Of(before + own, r) == Of(before, r) + Of(own, r) {
        OfAppend(before, own, r);
      }
      assert [] + own == own;
      forall r: nat | r < n ensures SeesEnd(cfg, ops, keys[r], now, r, before + own) {
        if r < i {
          assert SeesEnd(cfg, ops, keys[r], now, r, before);
          assert Of(before, r) + [] == Of(before, r);
        }
      }
    }
  }

  /** For every input there is such a table: one that goes through its keys in turn. */
  lemma {:induction false} TablesExist(order: SortType, cfg: Config, ops: seq<Numbered>, keys: seq<Key>, now: nat)
    requires NoDuplicates(keys) && forall o | o in ops && o.op.Event? :: o.op.p.key in keys
    ensures exists t :: IsTable(order, cfg, ops, keys, now, t)
  {
    hide Sees, SeesEnd, AllPlain;
    var chunks := seq(|ops|, j requires 0 <= j < |ops| => Round(cfg, ops, keys, j, |keys|));
    var last := LastRound(cfg, ops, keys, now, |keys|);
    forall j: nat | j < |ops|
      ensures AllPlain(chunks[j], |keys|) && FlushesFit(order, chunks[j])
      ensures forall r: nat | r < |keys| :: Sees(cfg, ops, keys[r], j, r, chunks[j])
    {
      RoundIs(cfg, ops, keys, j, |keys|);
    }
    LastRoundIs(cfg, ops, keys, now, |keys|);
    assert TableRun(order, cfg, ops, keys, now, chunks, last);
    assert IsTable(order, cfg, ops, keys, now, Flat(chunks) + last);
  }
}
