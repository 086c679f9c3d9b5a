/** Which packets of a key belong to one flow record: the plain specification by idle and
    active timeout, window, and end of the connection. */
module FlowSegments {
  import opened ExportOrder
  import opened TcpEnd

  // FlowOptions; a timeout of 0 switches the timer off.
  datatype Config = Config(idle: nat, active: nat, window: bool, perPacket: bool, fivetuple: bool)

  // A packet that ends its record whatever comes next.
  ghost predicate Ended(cfg: Config, ps: seq<Packet>) {
    ps != [] && (cfg.perPacket || (cfg.fivetuple && ps[0].tcp && ConnectionOver(ps)))
  }

  /** ---- specification ---- */

  // The next packet does not belong to the record any more.
  ghost predicate Splits(cfg: Config, seg: seq<Packet>, p: Packet)
    requires seg != []
  {
    || Ended(cfg, seg)
    || (cfg.window && p.window != seg[|seg| - 1].window)
    || (cfg.idle != 0 && p.time > seg[|seg| - 1].time + cfg.idle)
    || (cfg.active != 0 && p.time > seg[0].time + cfg.active)
  }

  // ... or it arrives exactly when a timer is due.
  ghost predicate MaySplit(cfg: Config, seg: seq<Packet>, p: Packet)
    requires seg != []
  {
    || Ended(cfg, seg)
    || (cfg.window && p.window != seg[|seg| - 1].window)
    || (cfg.idle != 0 && p.time >= seg[|seg| - 1].time + cfg.idle)
    || (cfg.active != 0 && p.time >= seg[0].time + cfg.active)
  }

  // The records of a key's packets, `seg` being the one that is open.
  ghost function SegmentsFrom(cfg: Config, seg: seq<Packet>, ps: seq<Packet>): seq<seq<Packet>>
    requires seg != []
    decreases |ps|
  {
    if ps == [] then [seg]
    else if Splits(cfg, seg, ps[0]) then [seg] + SegmentsFrom(cfg, [ps[0]], ps[1..])
    else SegmentsFrom(cfg, seg + [ps[0]], ps[1..])
  }

  /** A new record iff the gap exceeds the idle timeout, the span exceeds the active
      timeout, the window changed, or the previous packet ended the record. */
  ghost function Segments(cfg: Config, ps: seq<Packet>): seq<seq<Packet>> {
    if ps == [] then [] else SegmentsFrom(cfg, [ps[0]], ps[1..])
  }

  // No packet arrives exactly when a timer of the open record is due.
  ghost predicate NoTiesFrom(cfg: Config, seg: seq<Packet>, ps: seq<Packet>)
    requires seg != []
    decreases |ps|
  {
    ps == [] ||
    ((MaySplit(cfg, seg, ps[0]) ==> Splits(cfg, seg, ps[0]))
     && NoTiesFrom(cfg, if Splits(cfg, seg, ps[0]) then [ps[0]] else seg + [ps[0]], ps[1..]))
  }

  ghost predicate NoTies(cfg: Config, ps: seq<Packet>) {
    ps == [] || NoTiesFrom(cfg, [ps[0]], ps[1..])
  }

  /** ---- any admissible way to cut a key's packets ---- */

  // No packet but the first was due to start a new record.
  ghost predicate Unsplit(cfg: Config, seg: seq<Packet>) {
    seg != [] && forall i | 0 < i < |seg| :: !Splits(cfg, seg[..i], seg[i])
  }

  // A record that may be followed by one starting with p.
  ghost predicate MayFollow(cfg: Config, seg: seq<Packet>, next: seq<Packet>) {
    seg != [] && next != [] && MaySplit(cfg, seg, next[0])
  }

  ghost predicate Admissible(cfg: Config, segs: seq<seq<Packet>>) {
    segs == []
    || (Unsplit(cfg, segs[0]) && (|segs| > 1 ==> MayFollow(cfg, segs[0], segs[1])) && Admissible(cfg, segs[1..]))
  }

  /** Both timeouts are kept: neighbouring packets of the record are at most the idle
      timeout apart and of one window, none is later than first + active timeout, and the
      record does not go on after a packet that ended it. */
  ghost predicate KeepsTimeouts(cfg: Config, seg: seq<Packet>) {
    forall i | 0 < i < |seg| ::
      && (cfg.idle != 0 ==> seg[i].time <= seg[i - 1].time + cfg.idle)
      && (cfg.active != 0 ==> seg[i].time <= seg[0].time + cfg.active)
      && (cfg.window ==> seg[i].window == seg[i - 1].window)
      && !Ended(cfg, seg[..i])
  }

  ghost predicate AllKeepTimeouts(cfg: Config, segs: seq<seq<Packet>>) {
    forall i | 0 <= i < |segs| :: KeepsTimeouts(cfg, segs[i])
  }

  lemma {:induction false} UnsplitKeepsTimeouts(cfg: Config, seg: seq<Packet>)
    requires seg != []
    ensures Unsplit(cfg, seg) <==> KeepsTimeouts(cfg, seg)
  {
    hide Ended;
    forall i | 0 < i < |seg| && Unsplit(cfg, seg) ensures !Splits(cfg, seg[..i], seg[i]) {
    }
  }

  lemma {:induction false} AdmissibleKeepsTimeouts(cfg: Config, segs: seq<seq<Packet>>)
    requires Admissible(cfg, segs)
    ensures AllKeepTimeouts(cfg, segs)
  {
    hide KeepsTimeouts, MayFollow;
    if segs != [] {
      UnsplitKeepsTimeouts(cfg, segs[0]);
      AdmissibleKeepsTimeouts(cfg, segs[1..]);
      forall i | 0 <= i < |segs| ensures KeepsTimeouts(cfg, segs[i]) {
        assert i > 0 ==> segs[i] == segs[1..][i - 1];
      }
    }
  }

  // Every record but the last ends where the specification ends it.
  ghost predicate Sharp(cfg: Config, segs: seq<seq<Packet>>) {
    segs == []
    || (segs[0] != [] && (|segs| > 1 ==> segs[1] != [] && Splits(cfg, segs[0], segs[1][0])) && Sharp(cfg, segs[1..]))
  }

  lemma {:induction false} SegmentsAreSharp(cfg: Config, seg: seq<Packet>, ps: seq<Packet>)
    requires seg != []
    ensures var r := SegmentsFrom(cfg, seg, ps);
            Sharp(cfg, r) && r != [] && |r[0]| >= |seg| && r[0][..|seg|] == seg
    decreases |ps|
  {
    hide Splits;
    if ps == [] {
    } else if Splits(cfg, seg, ps[0]) {
      SegmentsAreSharp(cfg, [ps[0]], ps[1..]);
      var more := SegmentsFrom(cfg, [ps[0]], ps[1..]);
      assert more[0][0] == more[0][..1][0] && ([seg] + more)[1..] == more;
    } else {
      SegmentsAreSharp(cfg, seg + [ps[0]], ps[1..]);
      var r := SegmentsFrom(cfg, seg + [ps[0]], ps[1..]);
      assert r[0][..|seg|] == r[0][..|seg| + 1][..|seg|] == seg;
    }
  }

  // One packet more in the open record ...
  lemma {:induction false} SharpWithin(cfg: Config, seg: seq<Packet>, more: seq<Packet>, rest: seq<seq<Packet>>)
    requires seg != [] && more != [] && Unsplit(cfg, seg + more) && Admissible(cfg, rest)
    requires Sharp(cfg, [seg + more] + rest)
    ensures SegmentsFrom(cfg, seg, more + Flat(rest)) == [seg + more] + rest
    decreases |more| + |Flat(rest)|, |rest|, 0
  {
    hide Splits, Ended, Admissible, Sharp;
    var ps, p, all := more + Flat(rest), more[0], seg + more;
    assert !Splits(cfg, all[..|seg|], all[|seg|]);
    assert all[..|seg|] == seg && all[|seg|] == p;
    assert ps[0] == p && ps[1..] == more[1..] + Flat(rest);
    assert (seg + [p]) + more[1..] == all;
    SharpIsSegments(cfg, seg + [p], more[1..], rest);
  }

  // ... or the start of the next one.
  lemma {:induction false} SharpAtEnd(cfg: Config, seg: seq<Packet>, rest: seq<seq<Packet>>)
    requires seg != [] && rest != [] && Admissible(cfg, rest) && Sharp(cfg, [seg] + rest)
    ensures SegmentsFrom(cfg, seg, Flat(rest)) == [seg] + rest
    decreases |Flat(rest)|, |rest|, 0
  {
    hide Splits, Ended;
    var next, others := rest[0], rest[1..];
    var ps := Flat(rest);
    assert ([seg] + rest)[1..] == rest && next != [] && Splits(cfg, seg, next[0]);
    assert ps == next + Flat(others);
    assert ps[0] == next[0] && ps[1..] == next[1..] + Flat(others);
    assert [next[0]] + next[1..] == next && [next] + others == rest;
    SharpIsSegments(cfg, [next[0]], next[1..], others);
  }

  lemma {:induction false} SharpIsSegments(cfg: Config, seg: seq<Packet>, more: seq<Packet>, rest: seq<seq<Packet>>)
    requires seg != [] && Unsplit(cfg, seg + more) && Admissible(cfg, rest)
    requires Sharp(cfg, [seg + more] + rest)
    ensures SegmentsFrom(cfg, seg, more + Flat(rest)) == [seg + more] + rest
    decreases |more| + |Flat(rest)|, |rest|, 1
  {
    hide Splits, Ended, Unsplit, Admissible, Sharp;
    if more != [] {
      SharpWithin(cfg, seg, more, rest);
    } else {
      assert more + Flat(rest) == Flat(rest) && seg + more == seg;
      if rest != [] {
        SharpAtEnd(cfg, seg, rest);
      } else {
        assert [seg] + rest == [seg];
      }
    }
  }

  /** Admissible records are the specification's exactly when they are sharp. */
  lemma {:induction false} AdmissibleIsSpecIff(cfg: Config, segs: seq<seq<Packet>>)
    requires Admissible(cfg, segs)
    ensures segs == Segments(cfg, Flat(segs)) <==> Sharp(cfg, segs)
  {
    hide Splits, Ended;
    if segs != [] {
      var s, rest := segs[0], segs[1..];
      assert [s[0]] + s[1..] == s && [s] + rest == segs;
      assert Flat(segs)[1..] == s[1..] + Flat(rest);
      if Sharp(cfg, segs) {
        SharpIsSegments(cfg, [s[0]], s[1..], rest);
      }
      SegmentsAreSharp(cfg, [s[0]], Flat(segs)[1..]);
    }
  }

  // Without ties there is no other way than sharp.
  lemma {:induction false} NoTiesIsSharp(cfg: Config, seg: seq<Packet>, more: seq<Packet>, rest: seq<seq<Packet>>)
    requires seg != [] && Unsplit(cfg, seg + more) && Admissible(cfg, rest)
    requires rest != [] ==> MayFollow(cfg, seg + more, rest[0])
    requires NoTiesFrom(cfg, seg, more + Flat(rest))
    ensures Sharp(cfg, [seg + more] + rest)
    decreases |more| + |Flat(rest)|, |rest|
  {
    hide Splits, MaySplit, Ended, Flat, Admissible, Sharp;
    if more != [] {
      var ps, p, all := more + Flat(rest), more[0], seg + more;
      assert !Splits(cfg, all[..|seg|], all[|seg|]);
      assert all[..|seg|] == seg && all[|seg|] == p;
      assert ps[0] == p && ps[1..] == more[1..] + Flat(rest);
      assert (seg + [p]) + more[1..] == all;
      NoTiesIsSharp(cfg, seg + [p], more[1..], rest);
    } else {
      assert more + Flat(rest) == Flat(rest) && seg + more == seg;
      if rest != [] {
        NoTiesAtEnd(cfg, seg, rest);
      } else {
        SharpCons(cfg, seg, rest);
      }
    }
  }

  lemma {:induction false} NoTiesAtEnd(cfg: Config, seg: seq<Packet>, rest: seq<seq<Packet>>)
    requires seg != [] && rest != [] && Admissible(cfg, rest) && MayFollow(cfg, seg, rest[0])
    requires NoTiesFrom(cfg, seg, Flat(rest))
    ensures Sharp(cfg, [seg] + rest)
    decreases |Flat(rest)|, |rest|, 0
  {
    hide Splits, MaySplit, Ended, Sharp;
    var next, others := rest[0], rest[1..];
    var ps := Flat(rest);
    assert ps == next + Flat(others);
    assert ps[0] == next[0] && ps[1..] == next[1..] + Flat(others);
    assert [next[0]] + next[1..] == next && [next] + others == rest;
    NoTiesIsSharp(cfg, [next[0]], next[1..], others);
    SharpCons(cfg, seg, rest);
  }

  lemma {:induction false} SharpCons(cfg: Config, seg: seq<Packet>, rest: seq<seq<Packet>>)
    requires seg != [] && (rest != [] ==> Sharp(cfg, rest) && rest[0] != [] && Splits(cfg, seg, rest[0][0]))
    ensures Sharp(cfg, [seg] + rest)
  {
    hide Splits;
    assert ([seg] + rest)[1..] == rest;
  }

  /** Without ties there is exactly one admissible way: the specification's. */
  lemma {:induction false} AdmissibleIsUnique(cfg: Config, segs: seq<seq<Packet>>)
    requires Admissible(cfg, segs) && NoTies(cfg, Flat(segs))
    ensures segs == Segments(cfg, Flat(segs))
  {
    hide Splits, MaySplit, Ended, Sharp;
    if segs != [] {
      var s, rest := segs[0], segs[1..];
      assert [s[0]] + s[1..] == s && [s] + rest == segs;
      assert Flat(segs)[1..] == s[1..] + Flat(rest);
      NoTiesIsSharp(cfg, [s[0]], s[1..], rest);
    }
    AdmissibleIsSpecIff(cfg, segs);
  }

  lemma {:induction false} AdmissibleAppend(cfg: Config, segs: seq<seq<Packet>>, seg: seq<Packet>)
    requires Admissible(cfg, segs) && Unsplit(cfg, seg)
    requires segs != [] ==> MayFollow(cfg, segs[|segs| - 1], seg)
    ensures Admissible(cfg, segs + [seg])
  {
    if segs == [] {
      assert [seg][1..] == [] && segs + [seg] == [seg];
    } else {
      assert (segs + [seg])[1..] == segs[1..] + [seg];
      AdmissibleAppend(cfg, segs[1..], seg);
    }
  }

  /** ---- one packet more ---- */

  // A packet behind an unsplit record keeps it unsplit, unless it splits.
  lemma {:induction false} UnsplitAppend(cfg: Config, seg: seq<Packet>, p: Packet)
    requires Unsplit(cfg, seg) && !Splits(cfg, seg, p)
    ensures Unsplit(cfg, seg + [p])
  {
    var all := seg + [p];
    forall i | 0 < i < |all| ensures !Splits(cfg, all[..i], all[i]) {
      if i < |seg| {
        assert all[..i] == seg[..i];
      } else {
        assert all[..i] == seg;
      }
    }
  }

  lemma {:induction false} LastAdmissible(cfg: Config, segs: seq<seq<Packet>>, seg: seq<Packet>)
    requires Admissible(cfg, segs + [seg])
    ensures Admissible(cfg, segs) && Unsplit(cfg, seg)
    ensures segs != [] ==> MayFollow(cfg, segs[|segs| - 1], seg)
  {
    if segs == [] {
      assert segs + [seg] == [seg];
    } else {
      assert (segs + [seg])[1..] == segs[1..] + [seg];
      LastAdmissible(cfg, segs[1..], seg);
    }
  }

  // Replacing the open record by a longer one.
  lemma {:induction false} GrowLast(cfg: Config, segs: seq<seq<Packet>>, seg: seq<Packet>, p: Packet)
    requires seg != [] && Admissible(cfg, segs + [seg]) && !Splits(cfg, seg, p)
    ensures Admissible(cfg, segs + [seg + [p]]) && Flat(segs + [seg + [p]]) == Flat(segs + [seg]) + [p]
  {
    LastAdmissible(cfg, segs, seg);
    UnsplitAppend(cfg, seg, p);
    AdmissibleAppend(cfg, segs, seg + [p]);
    FlatAppend(segs, seg);
    FlatAppend(segs, seg + [p]);
  }

  // Only the last boundary is new.
  lemma {:induction false} SharpAppend(cfg: Config, segs: seq<seq<Packet>>, seg: seq<Packet>)
    requires seg != []
    ensures Sharp(cfg, segs + [seg]) <==>
            Sharp(cfg, segs) && (segs != [] ==> segs[|segs| - 1] != [] && Splits(cfg, segs[|segs| - 1], seg[0]))
  {
    hide Splits;
    if segs == [] {
      assert segs + [seg] == [seg];
    } else {
      assert (segs + [seg])[1..] == segs[1..] + [seg];
      SharpAppend(cfg, segs[1..], seg);
    }
  }
}
