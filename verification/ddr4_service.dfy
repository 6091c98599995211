/** Bounded service: a read that the scheduler keeps picking needs at most three preparatory commands and
    issues within four times the largest timing value. */
module Ddr4Service {
  import opened TimingHistory
  import opened DramTree
  import opened Ddr4Table
  import opened Ddr4State
  import opened Ddr4Channel

  // No rule of the table delays a command by more than `v` cycles.
  predicate AtMost(spec: Spec, v: int)
    requires spec.Valid()
  {
    forall l, c, k | 0 <= l < |spec.timing| && 0 <= c < spec.numCmds && 0 <= k < |spec.timing[l][c]| ::
      spec.timing[l][c][k].val <= v
  }

  lemma {:induction false} EarliestBounded(spec: Spec, p: Path, q: nat, h: seq<Event>, v: nat)
    requires spec.Valid() && |p| <= |spec.timing| && Chronological(h) && AtMost(spec, v)
    ensures Earliest(spec, p, q, h) <= LastClk(h) + v
    decreases |h|
  {
    if h != [] {
      var e, init := h[|h| - 1], h[..|h| - 1];
      EarliestBounded(spec, p, q, init, v);
      if e.cmd < spec.numCmds {
        var row := spec.timing[|p| - 1][e.cmd];
        var w := Window(Issues(p, e.cmd, h), MaxDist(row));
        MaxDistCovers(spec, |p| - 1, e.cmd);
        RaiseOwnBound(Earliest(spec, p, q, init), row, q, w, LastClk(h) + v);
        RaiseSiblingBound(Earliest(spec, p, q, init), row, q, e.clk, LastClk(h) + v);
        IssuesSorted(p, e.cmd, h, e.clk);
      }
    }
  }

  lemma {:induction false} PathNextBounded(node: Dram, cmd: nat, addr: seq<int>, h: seq<Event>, v: nat)
    requires node.Tree() && node.Aims(addr) && cmd < node.spec.numCmds && node.Synced(h)
    requires Chronological(h) && AtMost(node.spec, v)
    ensures node.PathNext(cmd, addr) <= LastClk(h) + v
    decreases node.height
  {
    EarliestBounded(node.spec, node.path, cmd, h, v);
    var childId := addr[node.level + 1];
    if !(childId < 0 || node.level == node.spec.scope[cmd] || |node.children| == 0) {
      node.AimsBelow(addr);
      node.Apart(childId);
      assert node.children[childId].Synced(h);
      PathNextBounded(node.children[childId], cmd, addr, h, v);
    }
  }

  // The preparatory commands a read of this row still needs.
  function Missing(rank: Snapshot, bank: Snapshot, row: int): (n: nat)
    ensures n <= 3
  {
    (if rank.state == PowerUp then 0 else 1) + (if bank.state == Closed then 1 else if row in bank.rows then 0 else 2)
  }

  function Pending(channel: Dram, addr: seq<int>): nat
    requires BankAddress(channel, addr)
    reads channel.nodes
  {
    Missing(Snap(RankOf(channel, addr)), Snap(BankOf(channel, addr)), addr[ROW])
  }

  // Each preparatory command brings the read one step closer.
  lemma MissingDrops(rank: Snapshot, bank: Snapshot, rp: Path, bp: Path, addr: seq<int>, cmd: nat, powerDown: State)
    requires |addr| == LEVELS && |rp| == RANK + 1 && |bp| == BANK + 1 && rp <= addr && bp <= addr
    requires StateOk(RANK, rank) && StateOk(BANK, bank)
    requires cmd == if rank.state == SelfRefresh then SRX else if rank.state != PowerUp then PDX
                    else if bank.state == Closed then ACT else PRE
    requires Missing(rank, bank, addr[ROW]) > 0
    ensures Missing(After(cmd, addr, rp, rank, powerDown), After(cmd, addr, bp, bank, powerDown), addr[ROW])
            == Missing(rank, bank, addr[ROW]) - 1
  {}

  lemma ReadStep(channel: Dram, addr: seq<int>)
    requires BankAddress(channel, addr) && RowInvariant(channel)
    ensures Decode(channel, RD, addr) == RD <==> Pending(channel, addr) == 0
    ensures IsReadStep(Decode(channel, RD, addr))
  {
    DecodeColumn(channel, RD, addr);
    assert StateOk(RANK, Snap(RankOf(channel, addr))) && StateOk(BANK, Snap(BankOf(channel, addr)));
  }

  // One tick on behalf of the read: the decoded command issues if the timing index lets it.
  method TryRead(channel: Dram, addr: seq<int>, clk: nat, ghost h: seq<Event>, ghost v: nat)
      returns (issued: bool, cmd: nat)
    requires Running(channel, h) && BankAddress(channel, addr) && LastClk(h) <= clk && AtMost(channel.spec, v)
    modifies channel`cur_clk, channel.nodes`state, channel.nodes`row_state, channel.nodes`next, channel.nodes`prev
    ensures IsReadStep(cmd)
    ensures issued ==> Running(channel, h + [Event(cmd, addr, clk)])
    ensures !issued ==> Running(channel, h) && clk < LastClk(h) + v
    ensures !issued ==> Pending(channel, addr) == old(Pending(channel, addr))
    ensures issued ==> (cmd == RD <==> old(Pending(channel, addr)) == 0)
    ensures issued && cmd != RD ==> Pending(channel, addr) == old(Pending(channel, addr)) - 1
  {
    ReadStep(channel, addr);
    DecodeColumn(channel, RD, addr);
    cmd := Decode(channel, RD, addr);
    channel.ReadyFromPathNext(cmd, addr, clk);
    issued := channel.Check(cmd, addr, clk);
    if issued {
      ghost var rank, bank := RankOf(channel, addr), BankOf(channel, addr);
      if cmd != RD {
        MissingDrops(Snap(rank), Snap(bank), rank.path, bank.path, addr, cmd, PowerDownState(channel, addr));
      }
      Issue(channel, RD, cmd, addr, clk, h);
    } else {
      PathNextBounded(channel, cmd, addr, h, v);
    }
  }

  predicate IsReadStep(cmd: nat) {
    cmd == RD || cmd == PRE || cmd == ACT || cmd == PDX || cmd == SRX
  }

  // At most three preparatory commands and then the read itself, all for the same address.
  predicate ReadSequence(log: seq<Event>, addr: seq<int>, done: nat) {
    && |log| > 0 && log[|log| - 1] == Event(RD, addr, done)
    && forall i | 0 <= i < |log| - 1 :: IsReadStep(log[i].cmd) && log[i].cmd != RD && log[i].addr == addr
  }

  lemma Prepend(h: seq<Event>, e: Event, log: seq<Event>, addr: seq<int>, done: nat)
    requires ReadSequence(log, addr, done) && IsReadStep(e.cmd) && e.cmd != RD && e.addr == addr
    ensures h + ([e] + log) == h + [e] + log && ReadSequence([e] + log, addr, done)
  {}

  lemma OneStep(h: seq<Event>, e: Event)
    ensures LastClk(h + [e]) == e.clk && (e.cmd == RD ==> ReadSequence([e], e.addr, e.clk))
  {}

  // Ticks until the next command for the read issues: at most `v` cycles after the last one.
  method NextStep(channel: Dram, addr: seq<int>, start: nat, ghost h: seq<Event>, ghost v: nat)
      returns (clk: nat, cmd: nat)
    requires Running(channel, h) && BankAddress(channel, addr) && AtMost(channel.spec, v) && v >= 1
    requires LastClk(h) <= start
    modifies channel`cur_clk, channel.nodes`state, channel.nodes`row_state, channel.nodes`next, channel.nodes`prev
    ensures start < clk <= start + v && IsReadStep(cmd) && Running(channel, h + [Event(cmd, addr, clk)])
    ensures cmd == RD <==> old(Pending(channel, addr)) == 0
    ensures cmd != RD ==> Pending(channel, addr) == old(Pending(channel, addr)) - 1
  {
    var issued := false;
    clk, cmd := start, RD;
    while !issued
      invariant issued ==> start < clk && IsReadStep(cmd) && Running(channel, h + [Event(cmd, addr, clk)])
      invariant issued ==> (cmd == RD <==> old(Pending(channel, addr)) == 0)
      invariant issued && cmd != RD ==> Pending(channel, addr) == old(Pending(channel, addr)) - 1
      invariant !issued ==>
                  Running(channel, h) && Pending(channel, addr) == old(Pending(channel, addr)) && clk < start + v
      invariant start <= clk <= start + v
      decreases !issued, start + v - clk
    {
      clk := clk + 1;
      issued, cmd := TryRead(channel, addr, clk, h, v);
    }
  }

  /** Issues commands until the read itself has issued, with nothing else issued meanwhile. */
  method ServeRead(channel: Dram, addr: seq<int>, start: nat, ghost h: seq<Event>, ghost v: nat)
    returns (done: nat, ghost log: seq<Event>)
    requires Running(channel, h) && BankAddress(channel, addr) && AtMost(channel.spec, v) && v >= 1
    requires LastClk(h) <= start
    modifies channel`cur_clk, channel.nodes`state, channel.nodes`row_state, channel.nodes`next, channel.nodes`prev
    ensures Running(channel, h + log) && ReadSequence(log, addr, done)
    ensures |log| == old(Pending(channel, addr)) + 1
    ensures start < done <= start + Times(v, old(Pending(channel, addr)) + 1)
    decreases Pending(channel, addr)
  {
    hide Running, BankAddress, AtMost, ReadSequence, Pending, LastClk;
    ghost var need := Pending(channel, addr);
    var clk, cmd := NextStep(channel, addr, start, h, v);
    ghost var e := Event(cmd, addr, clk);
    OneStep(h, e);
    assert Times(v, need + 1) == v + Times(v, need);
    if cmd == RD {
      done, log := clk, [e];
    } else {
      done, log := ServeRead(channel, addr, clk, h + [e], v);
      Prepend(h, e, log, addr, done);
      log := [e] + log;
    }
  }

  ghost function Times(v: nat, n: nat): nat {
    if n == 0 then 0 else v + Times(v, n - 1)
  }

  /** Bounded service: at most four commands, the last of them the read, within four times the largest
      timing value of the clock at which the scheduler starts picking it. */
  method Serve(channel: Dram, addr: seq<int>, start: nat, ghost h: seq<Event>, ghost v: nat)
    returns (done: nat, ghost log: seq<Event>)
    requires Running(channel, h) && BankAddress(channel, addr) && AtMost(channel.spec, v) && v >= 1
    requires LastClk(h) <= start
    modifies channel`cur_clk, channel.nodes`state, channel.nodes`row_state, channel.nodes`next, channel.nodes`prev
    ensures Running(channel, h + log) && ReadSequence(log, addr, done) && |log| <= 4
    ensures start < done <= start + 4 * v
  {
    done, log := ServeRead(channel, addr, start, h, v);
    UpToFour(v, |log|);
  }

  lemma UpToFour(v: nat, n: nat)
    requires n <= 4
    ensures Times(v, n) <= 4 * v
  {
    assert Times(v, 1) == v;
    assert Times(v, 2) == 2 * v;
    assert Times(v, 3) == 3 * v;
    assert Times(v, 4) == 4 * v;
  }
}
