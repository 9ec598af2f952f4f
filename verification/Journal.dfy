/**
 The two-sector write-ahead log in front of the tables: how one sector is written
 through it, what a mount does with what it finds there, and what a crash between
 any two of the steps can leave behind.
 */
module Journal {
  import opened Bytes
  import opened FatTable

  /** Where the log stands, the bytes of a sector, and the kind of volume. */
  datatype Log = Log(t: FatType, at: nat, bps: nat)

  type Disk = seq<Buf>

  ghost predicate Whole(d: Disk, bps: nat) {
    forall i :: 0 <= i < |d| ==> |d[i]| == bps
  }

  const MAGIC: Buf := [0x57, 0x41, 0x4C, 0x31]

  /** What the header of a prepared write starts with. */
  function Prefix(t: FatType, target: nat, bps: nat): (p: Buf)
    requires target < 0x1_0000_0000_0000_0000 && bps < 0x1_0000_0000
    ensures |p| == if t.Fat32? then 24 else 16
  {
    MAGIC + LE32(1) + LE64(target) + if t.Fat32? then LE32(1) + LE32(bps) else []
  }

  ghost predicate Fits(l: Log, d: Disk) {
    32 <= l.bps < 0x1_0000 && l.at + 1 < |d| && Whole(d, l.bps)
  }

  function Header(l: Log, target: nat): (h: Buf)
    requires 32 <= l.bps < 0x1_0000 && target < 0x1_0000_0000_0000_0000
    ensures |h| == l.bps
  {
    Splice(Zeros(l.bps), 0, Prefix(l.t, target, l.bps))
  }

  /** The checks a mount makes before it replays. */
  predicate Prepared(l: Log, h: Buf) {
    && |h| >= (if l.t.Fat32? then 32 else 16)
    && h[..4] == MAGIC && Read32(h, 4) == 1
    && (l.t.Fat32? ==>
          Read32(h, 16) == 1 && 0 < Read32(h, 20) <= l.bps && Read64(h, 8) != 0)
  }

  function Target(h: Buf): nat { Read64(h, 8) }

  lemma {:induction false} HeaderReads(l: Log, target: nat)
    requires 32 <= l.bps < 0x1_0000 && target < 0x1_0000_0000_0000_0000
    ensures var h := Header(l, target);
            h[..4] == MAGIC && Read32(h, 4) == 1 && Target(h) == target
  {
    var p, z := Prefix(l.t, target, l.bps), Zeros(l.bps);
    LE32Back(1);
    LE64Back(target);
    SpliceInside(z, 0, p, 0, 4);
    SpliceInside(z, 0, p, 4, 8);
    SpliceInside(z, 0, p, 8, 16);
    assert p[0..4] == MAGIC && p[4..8] == LE32(1) && p[8..16] == LE64(target);
  }

  lemma {:induction false} HeaderReads32(l: Log, target: nat)
    requires l.t.Fat32? && 32 <= l.bps < 0x1_0000 && target < 0x1_0000_0000_0000_0000
    ensures var h := Header(l, target); Read32(h, 16) == 1 && Read32(h, 20) == l.bps
  {
    var p, z := Prefix(l.t, target, l.bps), Zeros(l.bps);
    LE32Back(1);
    LE32Back(l.bps);
    SpliceInside(z, 0, p, 16, 20);
    SpliceInside(z, 0, p, 20, 24);
    assert p[16..20] == LE32(1) && p[20..24] == LE32(l.bps);
  }

  /** A header written for a target is taken up by the mount; on FAT32 the target must not be sector 0. */
  lemma {:induction false} HeaderIsPrepared(l: Log, target: nat)
    requires 32 <= l.bps < 0x1_0000 && target < 0x1_0000_0000_0000_0000
    ensures Prepared(l, Header(l, target)) <==> (l.t.Fat32? ==> target != 0)
    ensures Target(Header(l, target)) == target
  {
    HeaderReads(l, target);
    if l.t.Fat32? { HeaderReads32(l, target); }
  }

  lemma {:induction false} ClearIsNotPrepared(l: Log)
    ensures !Prepared(l, Zeros(l.bps))
  {
    if l.bps >= 4 { assert Zeros(l.bps)[..4][0] == 0; }
  }

  // -------------------------------------------------------- writing through the log

  function Put(d: Disk, lba: nat, data: Buf): (r: Disk)
    ensures |r| == |d|
  {
    if lba < |d| then d[lba := data] else d
  }

  /** The disk after the first `k` of the four steps: header, payload, target, clear. */
  ghost function Stage(l: Log, d: Disk, target: nat, data: Buf, k: nat): (r: Disk)
    requires Fits(l, d) && target < |d| < 0x1_0000_0000_0000_0000 && k <= 4
    ensures |r| == |d|
  {
    var d1 := Put(d, l.at, Header(l, target));
    var d2 := Put(d1, l.at + 1, data);
    var d3 := Put(d2, target, data);
    if k == 0 then d
    else if k == 1 then d1
    else if k == 2 then d2
    else if k == 3 then d3
    else Put(d3, l.at, Zeros(l.bps))
  }

  /** What a mount makes of the disk. */
  function Replay(l: Log, d: Disk): (r: Disk)
    requires l.at + 1 < |d|
    ensures |r| == |d|
  {
    if !Prepared(l, d[l.at]) then d
    else Put(Put(d, Target(d[l.at]), d[l.at + 1]), l.at, Zeros(l.bps))
  }

  /** The target is a sector of its own, and one that the mount would replay. */
  ghost predicate Proper(l: Log, d: Disk, target: nat) {
    && Fits(l, d) && target < |d| < 0x1_0000_0000_0000_0000
    && target != l.at && target != l.at + 1
    && (l.t.Fat32? ==> target != 0)
  }

  /** The write done: the target holds the data, the log is clear and its payload is the data. */
  ghost function Done(l: Log, d: Disk, target: nat, data: Buf): (r: Disk)
    requires Proper(l, d, target)
    ensures |r| == |d|
  {
    d[l.at := Zeros(l.bps)][l.at + 1 := data][target := data]
  }

  lemma {:induction false} StagesDone(l: Log, d: Disk, target: nat, data: Buf)
    requires Proper(l, d, target)
    ensures Stage(l, d, target, data, 4) == Done(l, d, target, data)
  {
  }

  /** A disk on which the write is prepared, whatever the target holds. */
  ghost predicate Pending(l: Log, d: Disk, target: nat, data: Buf, x: Disk) {
    && Proper(l, d, target) && |x| == |d|
    && x[l.at] == Header(l, target) && x[l.at + 1] == data
    && forall i :: 0 <= i < |d| && i != l.at && i != l.at + 1 && i != target ==> x[i] == d[i]
  }

  lemma {:induction false} ReplayPending(l: Log, d: Disk, target: nat, data: Buf, x: Disk)
    requires Pending(l, d, target, data, x)
    ensures Replay(l, x) == Done(l, d, target, data)
  {
    HeaderIsPrepared(l, target);
  }

  /** From the payload on, every crash is recovered to the finished write. */
  lemma {:induction false} CrashAfterPayload(l: Log, d: Disk, target: nat, data: Buf, k: nat)
    requires Proper(l, d, target) && 2 <= k <= 4
    ensures Replay(l, Stage(l, d, target, data, k)) == Done(l, d, target, data)
  {
    if k < 4 {
      ReplayPending(l, d, target, data, Stage(l, d, target, data, k));
    } else {
      StagesDone(l, d, target, data);
      ClearIsNotPrepared(l);
    }
  }

  /** Before the header, a log left clear means that nothing happened. */
  lemma {:induction false} CrashBeforeHeader(l: Log, d: Disk, target: nat, data: Buf)
    requires Proper(l, d, target) && !Prepared(l, d[l.at])
    ensures Replay(l, Stage(l, d, target, data, 0)) == d
  {
  }

  /** Between header and payload, the mount copies the payload of an earlier write to the target. */
  lemma {:induction false} CrashBeforePayload(l: Log, d: Disk, target: nat, data: Buf)
    requires Proper(l, d, target)
    ensures Replay(l, Stage(l, d, target, data, 1)) == d[l.at := Zeros(l.bps)][target := d[l.at + 1]]
  {
    HeaderIsPrepared(l, target);
  }

  /**
   A crash leaves the target with its old or its new content for every step but one;
   after the header alone it does so exactly when the payload sector already held either.
   */
  lemma {:induction false} OldOrNewIff(l: Log, d: Disk, target: nat, data: Buf, k: nat)
    requires Proper(l, d, target) && !Prepared(l, d[l.at]) && k <= 4
    ensures var r := Replay(l, Stage(l, d, target, data, k));
            (r[target] == d[target] || r[target] == data)
            <==> (k == 1 ==> d[l.at + 1] == d[target] || d[l.at + 1] == data)
  {
    if k == 0 {
      CrashBeforeHeader(l, d, target, data);
    } else if k == 1 {
      CrashBeforePayload(l, d, target, data);
    } else {
      CrashAfterPayload(l, d, target, data, k);
    }
  }

  /** A disk on which that crash gives the target a third content. */
  lemma {:induction false} StalePayloadIsReplayed(t: FatType)
    ensures exists l: Log, d: Disk, target: nat, data: Buf ::
      && Proper(l, d, target) && l.t == t && !Prepared(l, d[l.at])
      && var r := Replay(l, Stage(l, d, target, data, 1));
         r[target] != d[target] && r[target] != data
  {
    var l := Log(t, 1, 32);
    var ones: Buf, twos: Buf := seq(32, _ => 1), seq(32, _ => 2);
    var d: Disk := [Zeros(32), Zeros(32), ones, Zeros(32)];
    ClearIsNotPrepared(l);
    CrashBeforePayload(l, d, 3, twos);
    assert ones[0] == 1 && twos[0] == 2 && Zeros(32)[0] == 0;
    assert Proper(l, d, 3);
    assert Replay(l, Stage(l, d, 3, twos, 1))[3] == ones;
  }

  // -------------------------------------------------- crashes during the recovery

  /** Where an interrupted mount stopped: before it wrote, with the target torn, or before it cleared the log. */
  datatype Interruption = BeforeTarget | TornTarget(rubbish: Buf) | BeforeClear

  ghost function Interrupted(l: Log, d: Disk, stop: Interruption): (r: Disk)
    requires l.at + 1 < |d|
    ensures |r| == |d|
  {
    if !Prepared(l, d[l.at]) then d
    else
      match stop
      case BeforeTarget => d
      case TornTarget(rubbish) => Put(d, Target(d[l.at]), rubbish)
      case BeforeClear => Put(d, Target(d[l.at]), d[l.at + 1])
  }

  ghost function Mounts(l: Log, d: Disk, stops: seq<Interruption>): (r: Disk)
    requires l.at + 1 < |d|
    ensures |r| == |d|
    decreases |stops|
  {
    if stops == [] then Replay(l, d) else Mounts(l, Interrupted(l, d, stops[0]), stops[1..])
  }

  lemma {:induction false} InterruptedStaysPending(l: Log, d: Disk, target: nat, data: Buf, x: Disk, stop: Interruption)
    requires Pending(l, d, target, data, x)
    ensures Pending(l, d, target, data, Interrupted(l, x, stop))
  {
    HeaderIsPrepared(l, target);
  }

  /** However many mounts are cut short, even with the target torn, the one that completes finishes the write. */
  lemma {:induction false} EveryRecoveryFinishes(
      l: Log, d: Disk, target: nat, data: Buf, x: Disk, stops: seq<Interruption>)
    requires Pending(l, d, target, data, x)
    ensures Mounts(l, x, stops) == Done(l, d, target, data)
    decreases |stops|
  {
    if stops == [] {
      ReplayPending(l, d, target, data, x);
    } else {
      InterruptedStaysPending(l, d, target, data, x, stops[0]);
      EveryRecoveryFinishes(l, d, target, data, Interrupted(l, x, stops[0]), stops[1..]);
    }
  }

  // --------------------------------------------------------- a run of many writes

  datatype Write = Write(target: nat, data: Buf)

  /** The sectors outside the log. */
  ghost predicate SameFiles(l: Log, d: Disk, d': Disk) {
    |d| == |d'| && forall i :: 0 <= i < |d| && i != l.at && i != l.at + 1 ==> d'[i] == d[i]
  }

  /** The disk after all the writes, without a log. */
  ghost function Plain(d: Disk, ws: seq<Write>): (r: Disk)
    ensures |r| == |d|
    decreases |ws|
  {
    if ws == [] then d else Plain(Put(d, ws[0].target, ws[0].data), ws[1..])
  }

  ghost predicate AllProper(l: Log, d: Disk, ws: seq<Write>) {
    forall i :: 0 <= i < |ws| ==> Proper(l, d, ws[i].target) && |ws[i].data| == l.bps
  }

  /** The disk after all the writes, each through the log. */
  ghost function Logged(l: Log, d: Disk, ws: seq<Write>): (r: Disk)
    requires AllProper(l, d, ws)
    ensures |r| == |d|
    decreases |ws|
  {
    if ws == [] then d
    else
      var d1 := Done(l, d, ws[0].target, ws[0].data);
      Logged(l, d1, ws[1..])
  }

  lemma {:induction false} LoggedIsPlain(l: Log, d: Disk, e: Disk, ws: seq<Write>)
    requires AllProper(l, d, ws) && SameFiles(l, e, d)
    ensures SameFiles(l, Plain(e, ws), Logged(l, d, ws))
    decreases |ws|
  {
    if ws != [] {
      var d1 := Done(l, d, ws[0].target, ws[0].data);
      LoggedIsPlain(l, d1, Put(e, ws[0].target, ws[0].data), ws[1..]);
    }
  }

  /** The log is clear after a run that started with it clear. */
  lemma {:induction false} LoggedStaysClear(l: Log, d: Disk, ws: seq<Write>)
    requires AllProper(l, d, ws) && l.at + 1 < |d| && !Prepared(l, d[l.at])
    ensures !Prepared(l, Logged(l, d, ws)[l.at])
    decreases |ws|
  {
    if ws != [] {
      ClearIsNotPrepared(l);
      LoggedStaysClear(l, Done(l, d, ws[0].target, ws[0].data), ws[1..]);
    }
  }

  lemma {:induction false} LoggedIsProper(l: Log, d: Disk, ws: seq<Write>, w: Write)
    requires AllProper(l, d, ws) && Proper(l, d, w.target)
    ensures Proper(l, Logged(l, d, ws), w.target)
    decreases |ws|
  {
    if ws != [] {
      var d1 := Done(l, d, ws[0].target, ws[0].data);
      assert Proper(l, d, ws[0].target);
      LoggedIsProper(l, d1, ws[1..], w);
    }
  }

  lemma {:induction false} PlainSplit(d: Disk, ws: seq<Write>, w: Write)
    ensures Plain(d, ws + [w]) == Put(Plain(d, ws), w.target, w.data)
    decreases |ws|
  {
    if ws == [] {
      assert (ws + [w])[1..] == [];
    } else {
      assert (ws + [w])[1..] == ws[1..] + [w];
      PlainSplit(Put(d, ws[0].target, ws[0].data), ws[1..], w);
    }
  }

  lemma {:induction false} CrashAddsWrite(l: Log, d: Disk, e: Disk, w: Write, k: nat)
    requires Proper(l, d, w.target) && SameFiles(l, e, d) && 2 <= k <= 4
    ensures SameFiles(l, Put(e, w.target, w.data), Replay(l, Stage(l, d, w.target, w.data, k)))
  {
    CrashAfterPayload(l, d, w.target, w.data, k);
  }

  /**
   A crash anywhere in a run of logged writes, outside the one window, recovers to the
   disk after a whole number of them: those before, or those before and the current one.
   */
  lemma {:induction false} CrashKeepsPrefix(l: Log, d: Disk, ws: seq<Write>, w: Write, k: nat)
    requires l.at + 1 < |d| && !Prepared(l, d[l.at])
    requires AllProper(l, d, ws) && Proper(l, d, w.target) && |w.data| == l.bps
    requires k <= 4 && k != 1
    ensures Proper(l, Logged(l, d, ws), w.target)
    ensures var r := Replay(l, Stage(l, Logged(l, d, ws), w.target, w.data, k));
            SameFiles(l, if k == 0 then Plain(d, ws) else Plain(d, ws + [w]), r)
  {
    var d1 := Logged(l, d, ws);
    LoggedIsProper(l, d, ws, w);
    LoggedStaysClear(l, d, ws);
    LoggedIsPlain(l, d, d, ws);
    if k == 0 {
      CrashBeforeHeader(l, d1, w.target, w.data);
    } else {
      CrashAddsWrite(l, d1, Plain(d, ws), w, k);
      PlainSplit(d, ws, w);
    }
  }
}
