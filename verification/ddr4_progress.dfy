/** Progress of a DDR4 channel: the commands decoded for a request prepare it, in a bounded number of steps. Timing
    is left out here; how soon the commands of a read issue is in the module on its service. */
module Ddr4Progress {
  import opened TimingHistory
  import opened DramTree
  import opened Ddr4Table
  import opened Ddr4State
  import opened Ddr4Channel
  import opened Ddr4Service

  // A request of a column or of a rank, with an address that reaches as far.
  ghost predicate Requested(channel: Dram, request: nat, addr: seq<int>) {
    && Ddr4Tree(channel) && channel.level == CHANNEL && channel.Aims(addr) && addr[RANK] >= 0
    && (if request == RD || request == WR then BankAddress(channel, addr)
        else request == REF || request == PDE || request == SRE)
  }

  // The preparatory commands that a request still needs.
  ghost function Needed(channel: Dram, request: nat, addr: seq<int>): (n: nat)
    requires Requested(channel, request, addr)
    reads channel.nodes
    ensures n <= if request == RD || request == WR then 3 else 1
  {
    var rank := RankOf(channel, addr);
    if request == RD || request == WR then Missing(Snap(rank), Snap(BankOf(channel, addr)), addr[ROW])
    else if request == REF then if AnyOpen(rank) then 1 else 0
    else if request == PDE then if rank.state == SelfRefresh then 1 else 0
    else if rank.state == ActPowerDown || rank.state == PrePowerDown then 1 else 0
  }

  predicate IsPreparation(request: nat, cmd: nat) {
    if request == RD || request == WR then cmd == PDX || cmd == SRX || cmd == PRE || cmd == ACT
    else if request == REF then cmd == PREA
    else if request == PDE then cmd == SRX
    else cmd == PDX
  }

  /** A request decodes to itself exactly when nothing is needed, and otherwise to a command that prepares it. */
  lemma DecodeMeaning(channel: Dram, request: nat, addr: seq<int>)
    requires Requested(channel, request, addr) && RowInvariant(channel)
    ensures Decode(channel, request, addr) == request <==> Needed(channel, request, addr) == 0
    ensures Needed(channel, request, addr) > 0 ==> IsPreparation(request, Decode(channel, request, addr))
    ensures Issuable(channel, request, Decode(channel, request, addr), addr)
  {
    hide Dram.Branch, Dram.Tree, Ddr4Tree, Decode, RowInvariant, RankOf, BankOf, AnyOpen;
    if request == RD || request == WR {
      DecodeColumn(channel, request, addr);
    } else {
      DecodeRank(channel, request, addr);
    }
  }

  lemma Paths(channel: Dram, addr: seq<int>)
    requires Ddr4Tree(channel) && channel.level == CHANNEL && channel.Aims(addr) && addr[RANK] >= 0
    ensures var rank := RankOf(channel, addr); |addr| == LEVELS && |rank.path| == RANK + 1 && rank.path <= addr
    ensures BankAddress(channel, addr) ==>
              var bank := BankOf(channel, addr); |bank.path| == BANK + 1 && bank.path <= addr
  {}

  // One preparatory command of a column.
  method AdvanceColumn(channel: Dram, request: nat, addr: seq<int>)
    requires Requested(channel, request, addr) && RowInvariant(channel) && (request == RD || request == WR)
    requires Decode(channel, request, addr) != request
    modifies channel.nodes`state, channel.nodes`row_state
    ensures RowInvariant(channel) && Needed(channel, request, addr) == old(Needed(channel, request, addr)) - 1
  {
    DecodeMeaning(channel, request, addr);
    DecodeColumn(channel, request, addr);
    Paths(channel, addr);
    ghost var rank, bank := RankOf(channel, addr), BankOf(channel, addr);
    ghost var powerDown := PowerDownState(channel, addr);
    assert StateOk(RANK, Snap(rank)) && StateOk(BANK, Snap(bank));
    var cmd := Decode(channel, request, addr);
    MissingDrops(Snap(rank), Snap(bank), rank.path, bank.path, addr, cmd, powerDown);
    hide Dram.Branch, Dram.Tree, Ddr4Tree, Decode, RowInvariant, After, Missing, RankOf, BankOf, StateOk;
    IssueState(channel, request, cmd, addr);
  }

  // What the commands of a rank leave behind.
  lemma RankAfter(cmd: nat, addr: seq<int>, p: Path, s: Snapshot, powerDown: State)
    requires |addr| == LEVELS
    ensures |p| == RANK + 1 && p <= addr && (cmd == PDX || cmd == SRX) ==>
              After(cmd, addr, p, s, powerDown).state == PowerUp
    ensures |p| == RANK + 1 && p <= addr && cmd == PDE ==> After(cmd, addr, p, s, powerDown).state == powerDown
    ensures |p| == RANK + 1 && p <= addr && cmd == SRE ==> After(cmd, addr, p, s, powerDown).state == SelfRefresh
    ensures |p| == BANK + 1 && p[0] == addr[0] && p[RANK] == addr[RANK] && cmd == PREA ==>
              After(cmd, addr, p, s, powerDown).state == Closed
  {}

  // The preparatory command of a refresh.
  method CloseForRefresh(channel: Dram, addr: seq<int>)
    requires Requested(channel, REF, addr) && RowInvariant(channel) && Decode(channel, REF, addr) == PREA
    modifies channel.nodes`state, channel.nodes`row_state
    ensures RowInvariant(channel) && Needed(channel, REF, addr) == 0
  {
    Paths(channel, addr);
    ghost var rank, powerDown := RankOf(channel, addr), PowerDownState(channel, addr);
    forall g, b | 0 <= g < |rank.children| && 0 <= b < |rank.children[g].children|
      ensures var bank := BankAt(rank, g, b); After(PREA, addr, bank.path, Snap(bank), powerDown).state == Closed
    {
      RankAfter(PREA, addr, BankAt(rank, g, b).path, Snap(BankAt(rank, g, b)), powerDown);
    }
    DecodeMeaning(channel, REF, addr);
    hide Dram.Branch, Dram.Tree, Ddr4Tree, Decode, RowInvariant, RankOf, BankOf, BankAt, After;
    IssueState(channel, REF, PREA, addr);
  }

  // The preparatory command of a power state.
  method Wake(channel: Dram, request: nat, cmd: nat, addr: seq<int>)
    requires Requested(channel, request, addr) && RowInvariant(channel) && (request == PDE || request == SRE)
    requires cmd == Decode(channel, request, addr) && (cmd == PDX || cmd == SRX)
    modifies channel.nodes`state, channel.nodes`row_state
    ensures RowInvariant(channel) && Needed(channel, request, addr) == 0
  {
    Paths(channel, addr);
    ghost var rank, powerDown := RankOf(channel, addr), PowerDownState(channel, addr);
    RankAfter(cmd, addr, rank.path, Snap(rank), powerDown);
    DecodeMeaning(channel, request, addr);
    hide Dram.Branch, Dram.Tree, Ddr4Tree, Decode, RowInvariant, RankOf, BankOf, AnyOpen, After;
    IssueState(channel, request, cmd, addr);
  }

  method Advance(channel: Dram, request: nat, addr: seq<int>) returns (cmd: nat)
    requires Requested(channel, request, addr) && RowInvariant(channel) && Decode(channel, request, addr) != request
    modifies channel.nodes`state, channel.nodes`row_state
    ensures RowInvariant(channel) && cmd == old(Decode(channel, request, addr)) && IsPreparation(request, cmd)
    ensures Needed(channel, request, addr) == old(Needed(channel, request, addr)) - 1
  {
    hide Decode, RowInvariant, Needed, Ddr4Tree, Dram.Aims;
    DecodeMeaning(channel, request, addr);
    cmd := Decode(channel, request, addr);
    if request == RD || request == WR {
      AdvanceColumn(channel, request, addr);
    } else if request == REF {
      CloseForRefresh(channel, addr);
    } else {
      Wake(channel, request, cmd, addr);
    }
  }

  /** Progress: issuing what a request decodes to, again and again, prepares it. A read or write needs at most three
      commands, each one of PDX, SRX, PRE and ACT, and then finds its row open; a refresh needs at most a PREA and then
      finds every bank of its rank closed; the power states need at most a PDX or SRX. */
  method Prepare(channel: Dram, request: nat, addr: seq<int>) returns (cmds: seq<nat>)
    requires Requested(channel, request, addr) && RowInvariant(channel)
    modifies channel.nodes`state, channel.nodes`row_state
    ensures RowInvariant(channel) && Decode(channel, request, addr) == request && Safe(channel, request, addr)
    ensures |cmds| <= if request == RD || request == WR then 3 else 1
    ensures forall i | 0 <= i < |cmds| :: IsPreparation(request, cmds[i])
  {
    hide Decode, RowInvariant, Needed, IsPreparation, Ddr4Tree, Dram.Aims, Safe;
    cmds := [];
    ghost var need := Needed(channel, request, addr);
    while Decode(channel, request, addr) != request
      invariant RowInvariant(channel) && |cmds| + Needed(channel, request, addr) == need
      invariant forall i | 0 <= i < |cmds| :: IsPreparation(request, cmds[i])
      decreases Needed(channel, request, addr)
    {
      var cmd := Advance(channel, request, addr);
      cmds := cmds + [cmd];
    }
    DecodeMeaning(channel, request, addr);
    RowSafety(channel, request, request, addr);
  }

  /** Once a rank has entered a power state, a read or write of it must leave that state first. Power-down is active
      exactly when some bank was open. */
  method Sleep(channel: Dram, request: nat, addr: seq<int>)
    requires Requested(channel, request, addr) && RowInvariant(channel) && BankAddress(channel, addr)
    requires (request == PDE || request == SRE) && Decode(channel, request, addr) == request
    modifies channel.nodes`state, channel.nodes`row_state
    ensures RowInvariant(channel)
    ensures Decode(channel, RD, addr) == Decode(channel, WR, addr) == if request == PDE then PDX else SRX
    ensures request == PDE ==>
              RankOf(channel, addr).state == if old(AnyOpen(RankOf(channel, addr))) then ActPowerDown else PrePowerDown
  {
    DecodeMeaning(channel, request, addr);
    Paths(channel, addr);
    ghost var rank, powerDown := RankOf(channel, addr), PowerDownState(channel, addr);
    RankAfter(request, addr, rank.path, Snap(rank), powerDown);
    OpenBankBelow(channel, addr);
    AnyOpenIsOpenBank(rank, addr);
    assert powerDown == if AnyOpen(rank) then ActPowerDown else PrePowerDown;
    hide Dram.Branch, Dram.Tree, Ddr4Tree, Decode, RowInvariant, RankOf, BankOf, AnyOpen, OpenBank, After;
    IssueState(channel, request, request, addr);
    DecodeColumn(channel, RD, addr);
    DecodeColumn(channel, WR, addr);
  }
}
