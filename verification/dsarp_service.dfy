/** Progress of a DSARP channel: the commands decoded for a request prepare it, in a bounded number of steps. */
module DsarpService {
  import opened TimingHistory
  import opened DramTree
  import opened DsarpState
  import opened DsarpChannel

  // A request of a column, of the refresh of one bank, or of a rank, with an address that reaches as far.
  ghost predicate Requested(channel: Dram, request: nat, addr: seq<int>) {
    && DsarpTree(channel) && channel.level == CHANNEL && channel.Aims(addr) && addr[RANK] >= 0
    && (if request == RD || request == WR then AimsAtRow(channel, addr)
        else if request == REFPB then AimsAtBank(channel, addr)
        else request == REF || request == PDE || request == SRE)
  }

  // The preparatory commands that a column command still needs, told from its rank, its bank and its subarray.
  function Missing(rank: Snapshot, bank: Snapshot, sub: Snapshot, addr: seq<int>): (n: nat)
    requires |addr| == LEVELS
    ensures n <= 3
  {
    (if rank.state == PowerUp then 0 else 1) +
    (if bank.state == Closed then 1 else if addr[SUBARRAY] in bank.rows && addr[ROW] in sub.rows then 0 else 2)
  }

  // The same for any request.
  ghost function Pending(channel: Dram, request: nat, addr: seq<int>): (n: nat)
    requires Requested(channel, request, addr)
    reads channel.nodes
    ensures n <= if request == RD || request == WR then 3 else 1
  {
    var rank := RankOf(channel, addr);
    assert forall k | 0 <= k < |rank.children| :: rank.children[k] in rank.nodes;
    if request == RD || request == WR then
      Missing(Snap(rank), Snap(BankOf(channel, addr)), Snap(SubOf(channel, addr)), addr)
    else if request == REFPB then if BankOf(channel, addr).state == Closed then 0 else 1
    else if request == REF then if AnyBankOpen(rank) then 1 else 0
    else if request == PDE then if rank.state == SelfRefresh then 1 else 0
    else if rank.state == ActPowerDown || rank.state == PrePowerDown then 1 else 0
  }

  predicate IsPreparation(request: nat, cmd: nat) {
    if request == RD || request == WR then cmd == PDX || cmd == SRX || cmd == PRE || cmd == ACT
    else if request == REFPB then cmd == PRE
    else if request == REF then cmd == PREA
    else if request == PDE then cmd == SRX
    else cmd == PDX
  }

  lemma ColumnMeaning(channel: Dram, request: nat, addr: seq<int>)
    requires Requested(channel, request, addr) && RowInvariant(channel) && (request == RD || request == WR)
    ensures Decode(channel, request, addr) == request <==> Pending(channel, request, addr) == 0
    ensures Pending(channel, request, addr) > 0 ==> IsPreparation(request, Decode(channel, request, addr))
  {
    DecodeColumn(channel, request, addr);
    ghost var rank, bank, sub := RankOf(channel, addr), BankOf(channel, addr), SubOf(channel, addr);
    assert Pending(channel, request, addr) == Missing(Snap(rank), Snap(bank), Snap(sub), addr);
    hide Requested, Dram.Branch, Dram.Tree, DsarpTree, Decode, RowInvariant, RankOf, BankOf, SubOf, Pending, Missing;
    DemandMissing(rank, bank, sub, request, addr);
  }

  lemma DemandMissing(rank: Dram, bank: Dram, sub: Dram, request: nat, addr: seq<int>)
    requires |addr| == LEVELS && (request == RD || request == WR)
    requires 0 <= addr[SUBARRAY] < |bank.children| && sub == bank.children[addr[SUBARRAY]]
    ensures var cmd := if rank.state == SelfRefresh then SRX else if rank.state != PowerUp then PDX
                       else BankDemand(bank, request, addr[SUBARRAY], addr[ROW]);
            && (cmd == request <==> Missing(Snap(rank), Snap(bank), Snap(sub), addr) == 0)
            && (cmd != request ==> IsPreparation(request, cmd))
  {}

  lemma RankMeaning(channel: Dram, request: nat, addr: seq<int>)
    requires Requested(channel, request, addr) && RowInvariant(channel) && request != RD && request != WR
    ensures Decode(channel, request, addr) == request <==> Pending(channel, request, addr) == 0
    ensures Pending(channel, request, addr) > 0 ==> IsPreparation(request, Decode(channel, request, addr))
  {
    hide Dram.Branch, Dram.Tree, DsarpTree, Decode, RowInvariant, RankOf, BankOf, SubOf;
    if request == REFPB {
      DecodeRefreshBank(channel, addr);
    } else {
      DecodeRank(channel, request, addr);
    }
  }

  /** A request decodes to itself exactly when nothing is missing, and otherwise to a command that prepares it. */
  lemma DecodeMeaning(channel: Dram, request: nat, addr: seq<int>)
    requires Requested(channel, request, addr) && RowInvariant(channel)
    ensures Decode(channel, request, addr) == request <==> Pending(channel, request, addr) == 0
    ensures Pending(channel, request, addr) > 0 ==> IsPreparation(request, Decode(channel, request, addr))
    ensures Issuable(channel, request, Decode(channel, request, addr), addr)
  {
    hide Decode, RowInvariant, Pending, IsPreparation, DsarpTree, Dram.Aims;
    if request == RD || request == WR {
      ColumnMeaning(channel, request, addr);
    } else {
      RankMeaning(channel, request, addr);
    }
  }

  // What the decoded command does to a column's rank, bank and subarray.
  lemma MissingDrops(rank: Snapshot, bank: Snapshot, sub: Snapshot, rp: Path, bp: Path, sp: Path, addr: seq<int>,
      cmd: nat,
      powerDown: State)
    requires |addr| == LEVELS && |rp| == RANK + 1 && |bp| == BANK + 1 && |sp| == SUBARRAY + 1
    requires rp <= addr && bp <= addr && sp <= addr && PowerState(rank.state)
    requires cmd == if rank.state == SelfRefresh then SRX else if rank.state != PowerUp then PDX
                    else if bank.state == Closed then ACT else PRE
    requires Missing(rank, bank, sub, addr) > 0
    ensures Missing(After(cmd, addr, rp, rank, powerDown), After(cmd, addr, bp, bank, powerDown),
                    After(cmd, addr, sp, sub, powerDown), addr) == Missing(rank, bank, sub, addr) - 1
  {
    assert sp[..BANK + 1] <= addr;
  }

  // The nodes that a request of a column concerns, by their paths.
  lemma Paths(channel: Dram, addr: seq<int>)
    requires DsarpTree(channel) && channel.level == CHANNEL && channel.Aims(addr) && addr[RANK] >= 0
    ensures var rank := RankOf(channel, addr);
            && |addr| == LEVELS && |rank.path| == RANK + 1 && rank.path <= addr
            && forall k | 0 <= k < |rank.children| ::
                 rank.children[k] in channel.nodes && rank.children[k].path == rank.path + [k]
    ensures AimsAtBank(channel, addr) ==>
              var bank := BankOf(channel, addr); |bank.path| == BANK + 1 && bank.path <= addr
    ensures AimsAtRow(channel, addr) ==>
              var sub := SubOf(channel, addr); |sub.path| == SUBARRAY + 1 && sub.path <= addr
  {
    var rank := RankOf(channel, addr);
    forall k | 0 <= k < |rank.children|
      ensures rank.children[k] in channel.nodes && rank.children[k].path == rank.path + [k]
    {
      Child(rank, k);
      assert rank.children[k] in rank.nodes;
    }
  }

  // One preparatory command of a column.
  method AdvanceColumn(channel: Dram, request: nat, addr: seq<int>) returns (cmd: nat)
    requires Requested(channel, request, addr) && RowInvariant(channel) && (request == RD || request == WR)
    requires Decode(channel, request, addr) != request
    modifies channel.nodes`state, channel.nodes`row_state
    ensures RowInvariant(channel) && cmd == old(Decode(channel, request, addr)) && IsPreparation(request, cmd)
    ensures Pending(channel, request, addr) == old(Pending(channel, request, addr)) - 1
  {
    DecodeMeaning(channel, request, addr);
    DecodeColumn(channel, request, addr);
    Paths(channel, addr);
    ghost var rank, bank, sub := RankOf(channel, addr), BankOf(channel, addr), SubOf(channel, addr);
    ghost var powerDown := PowerDownState(channel, addr);
    ghost var r, b, u := Snap(rank), Snap(bank), Snap(sub);
    assert NodeOk(rank);
    cmd := Decode(channel, request, addr);
    MissingDrops(r, b, u, rank.path, bank.path, sub.path, addr, cmd, powerDown);
    hide Dram.Branch, Dram.Tree, DsarpTree, Decode, RowInvariant, After, Missing, BankDemand, RankOf, BankOf, SubOf;
    Issue(channel, request, cmd, addr);
  }

  // What the commands of a rank and of a bank's precharge leave behind.
  lemma RankAfter(cmd: nat, addr: seq<int>, p: Path, s: Snapshot, powerDown: State)
    requires |addr| == LEVELS
    ensures |p| == RANK + 1 && p <= addr && (cmd == PDX || cmd == SRX) ==>
              After(cmd, addr, p, s, powerDown).state == PowerUp
    ensures |p| == RANK + 1 && p <= addr && cmd == PDE ==> After(cmd, addr, p, s, powerDown).state == powerDown
    ensures |p| == RANK + 1 && p <= addr && cmd == SRE ==> After(cmd, addr, p, s, powerDown).state == SelfRefresh
    ensures |p| == BANK + 1 && p <= addr && cmd == PRE ==> After(cmd, addr, p, s, powerDown).state == Closed
    ensures |p| == BANK + 1 && p[..RANK + 1] <= addr && cmd == PREA ==>
              After(cmd, addr, p, s, powerDown).state == Closed
  {}

  // The preparatory command of the refresh of one bank.
  method CloseForRefresh(channel: Dram, addr: seq<int>)
    requires Requested(channel, REFPB, addr) && RowInvariant(channel) && Decode(channel, REFPB, addr) == PRE
    modifies channel.nodes`state, channel.nodes`row_state
    ensures RowInvariant(channel) && Pending(channel, REFPB, addr) == 0
  {
    Paths(channel, addr);
    ghost var bank, powerDown := BankOf(channel, addr), PowerDownState(channel, addr);
    RankAfter(PRE, addr, bank.path, Snap(bank), powerDown);
    DecodeMeaning(channel, REFPB, addr);
    hide Dram.Branch, Dram.Tree, DsarpTree, Decode, RowInvariant, RankOf, BankOf, After;
    Issue(channel, REFPB, PRE, addr);
  }

  // The preparatory command of the refresh of a rank.
  method CloseAllForRefresh(channel: Dram, addr: seq<int>)
    requires Requested(channel, REF, addr) && RowInvariant(channel) && Decode(channel, REF, addr) == PREA
    modifies channel.nodes`state, channel.nodes`row_state
    ensures RowInvariant(channel) && Pending(channel, REF, addr) == 0
  {
    Paths(channel, addr);
    ghost var rank, powerDown := RankOf(channel, addr), PowerDownState(channel, addr);
    forall k | 0 <= k < |rank.children|
      ensures After(PREA, addr, rank.children[k].path, Snap(rank.children[k]), powerDown).state == Closed
    {
      assert rank.children[k].path[..RANK + 1] == rank.path;
      RankAfter(PREA, addr, rank.children[k].path, Snap(rank.children[k]), powerDown);
    }
    DecodeMeaning(channel, REF, addr);
    hide Dram.Branch, Dram.Tree, DsarpTree, Decode, RowInvariant, RankOf, BankOf, After;
    Issue(channel, REF, PREA, addr);
  }

  // The preparatory command of a power state.
  method Wake(channel: Dram, request: nat, cmd: nat, addr: seq<int>)
    requires Requested(channel, request, addr) && RowInvariant(channel) && (request == PDE || request == SRE)
    requires cmd == Decode(channel, request, addr) && (cmd == PDX || cmd == SRX)
    modifies channel.nodes`state, channel.nodes`row_state
    ensures RowInvariant(channel) && Pending(channel, request, addr) == 0
  {
    Paths(channel, addr);
    ghost var rank, powerDown := RankOf(channel, addr), PowerDownState(channel, addr);
    RankAfter(cmd, addr, rank.path, Snap(rank), powerDown);
    DecodeMeaning(channel, request, addr);
    hide Dram.Branch, Dram.Tree, DsarpTree, Decode, RowInvariant, RankOf, BankOf, After;
    Issue(channel, request, cmd, addr);
  }

  // One preparatory command of a refresh or of a power state.
  method AdvanceRank(channel: Dram, request: nat, addr: seq<int>) returns (cmd: nat)
    requires Requested(channel, request, addr) && RowInvariant(channel) && request != RD && request != WR
    requires Decode(channel, request, addr) != request
    modifies channel.nodes`state, channel.nodes`row_state
    ensures RowInvariant(channel) && cmd == old(Decode(channel, request, addr)) && IsPreparation(request, cmd)
    ensures Pending(channel, request, addr) == old(Pending(channel, request, addr)) - 1
  {
    hide Decode, RowInvariant, Pending, DsarpTree, Dram.Aims;
    DecodeMeaning(channel, request, addr);
    cmd := Decode(channel, request, addr);
    if request == REFPB {
      CloseForRefresh(channel, addr);
    } else if request == REF {
      CloseAllForRefresh(channel, addr);
    } else {
      Wake(channel, request, cmd, addr);
    }
  }

  method Advance(channel: Dram, request: nat, addr: seq<int>) returns (cmd: nat)
    requires Requested(channel, request, addr) && RowInvariant(channel) && Decode(channel, request, addr) != request
    modifies channel.nodes`state, channel.nodes`row_state
    ensures RowInvariant(channel) && cmd == old(Decode(channel, request, addr)) && IsPreparation(request, cmd)
    ensures Pending(channel, request, addr) == old(Pending(channel, request, addr)) - 1
  {
    hide Decode, RowInvariant, Pending, IsPreparation, DsarpTree, Dram.Aims;
    if request == RD || request == WR {
      cmd := AdvanceColumn(channel, request, addr);
    } else {
      cmd := AdvanceRank(channel, request, addr);
    }
  }

  /** Progress: issuing what a request decodes to, again and again, prepares it. A read or write needs at most three
      commands, each one of PDX, SRX, PRE and ACT, and then finds its row open; the refresh of a bank at most a PRE, of
      a rank at most a PREA, and the power states at most a PDX or SRX. */
  method Prepare(channel: Dram, request: nat, addr: seq<int>) returns (cmds: seq<nat>)
    requires Requested(channel, request, addr) && RowInvariant(channel)
    modifies channel.nodes`state, channel.nodes`row_state
    ensures RowInvariant(channel) && Decode(channel, request, addr) == request
    ensures request == RD || request == WR ==> RowOpen(channel, addr)
    ensures request == REF ==> BanksShut(channel, addr)
    ensures |cmds| <= if request == RD || request == WR then 3 else 1
    ensures forall i | 0 <= i < |cmds| :: IsPreparation(request, cmds[i])
  {
    hide Decode, RowInvariant, Pending, IsPreparation, DsarpTree, Dram.Aims, Safe;
    cmds := [];
    ghost var need := Pending(channel, request, addr);
    while Decode(channel, request, addr) != request
      invariant RowInvariant(channel) && |cmds| + Pending(channel, request, addr) == need
      invariant forall i | 0 <= i < |cmds| :: IsPreparation(request, cmds[i])
      decreases Pending(channel, request, addr)
    {
      var cmd := Advance(channel, request, addr);
      cmds := cmds + [cmd];
    }
    DecodeMeaning(channel, request, addr);
    NestedSafety(channel, request, request, addr);
    SafeMeans(channel, request, addr);
  }

  lemma SafeMeans(channel: Dram, cmd: nat, addr: seq<int>)
    requires DsarpTree(channel) && channel.level == CHANNEL && channel.Aims(addr) && addr[RANK] >= 0
    requires Safe(channel, cmd, addr)
    ensures cmd == RD || cmd == WR ==> RowOpen(channel, addr)
    ensures cmd == REF ==> BanksShut(channel, addr)
  {}

  /** Once a rank has entered a power state, a read or write of it must leave that state first. Power-down is active
      exactly when some bank was open. */
  method Sleep(channel: Dram, request: nat, addr: seq<int>)
    requires Requested(channel, request, addr) && RowInvariant(channel) && AimsAtRow(channel, addr)
    requires (request == PDE || request == SRE) && Decode(channel, request, addr) == request
    modifies channel.nodes`state, channel.nodes`row_state
    ensures RowInvariant(channel)
    ensures Decode(channel, RD, addr) == Decode(channel, WR, addr) == if request == PDE then PDX else SRX
    ensures request == PDE ==>
              RankOf(channel, addr).state ==
              if old(AnyBankOpen(RankOf(channel, addr))) then ActPowerDown else PrePowerDown
  {
    DecodeMeaning(channel, request, addr);
    Paths(channel, addr);
    ghost var rank, powerDown := RankOf(channel, addr), PowerDownState(channel, addr);
    RankAfter(request, addr, rank.path, Snap(rank), powerDown);
    PowerDownMeaning(channel, addr);
    hide Dram.Branch, Dram.Tree, DsarpTree, Decode, RowInvariant, RankOf, BankOf, SubOf, After;
    Issue(channel, request, request, addr);
    DecodeColumn(channel, RD, addr);
    DecodeColumn(channel, WR, addr);
  }

  lemma PowerDownMeaning(channel: Dram, addr: seq<int>)
    requires DsarpTree(channel) && channel.level == CHANNEL && channel.Aims(addr) && addr[RANK] >= 0
    requires RowInvariant(channel)
    ensures PowerDownState(channel, addr) ==
            if AnyBankOpen(RankOf(channel, addr)) then ActPowerDown else PrePowerDown
  {
    var rank := RankOf(channel, addr);
    channel.AimsBelow(addr);
    Below(channel, addr[RANK]);
    OpenSubBelow(channel, addr);
    PowerDownAgrees(rank);
    AnySubIsOpenSub(rank, addr);
  }
}
