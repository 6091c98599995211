/** A DSARP channel in operation: in every run of decoded commands banks and subarrays agree on what is open. */
module DsarpChannel {
  import opened TimingHistory
  import opened DramTree
  import opened DsarpState

  // The address names an existing rank and bank.
  ghost predicate AimsAtBank(channel: Dram, addr: seq<int>) {
    && DsarpTree(channel) && channel.level == CHANNEL && channel.Aims(addr) && addr[RANK] >= 0 && addr[BANK] >= 0
  }

  // It also names a subarray and a row.
  ghost predicate AimsAtRow(channel: Dram, addr: seq<int>) {
    AimsAtBank(channel, addr) && addr[SUBARRAY] >= 0 && addr[ROW] >= 0
  }

  function RankOf(channel: Dram, addr: seq<int>): (rank: Dram)
    requires DsarpTree(channel) && channel.level == CHANNEL && channel.Aims(addr) && addr[RANK] >= 0
    ensures DsarpTree(rank) && rank in channel.nodes && rank.level == RANK && rank.path <= addr && rank.Aims(addr)
    ensures rank.nodes <= channel.nodes
  {
    channel.AimsBelow(addr);
    Child(channel, addr[RANK]);
    channel.children[addr[RANK]]
  }

  function BankOf(channel: Dram, addr: seq<int>): (bank: Dram)
    requires AimsAtBank(channel, addr)
    ensures DsarpTree(bank) && bank in channel.nodes && bank.level == BANK && bank.path <= addr && bank.Aims(addr)
    ensures bank.nodes <= channel.nodes
  {
    var rank := RankOf(channel, addr);
    rank.AimsBelow(addr);
    Child(rank, addr[BANK]);
    rank.children[addr[BANK]]
  }

  function SubOf(channel: Dram, addr: seq<int>): (sub: Dram)
    requires AimsAtRow(channel, addr)
    ensures DsarpTree(sub) && sub in channel.nodes && sub.level == SUBARRAY && sub.Aims(addr)
    ensures addr[SUBARRAY] < |BankOf(channel, addr).children| && sub == BankOf(channel, addr).children[addr[SUBARRAY]]
  {
    var bank := BankOf(channel, addr);
    bank.AimsBelow(addr);
    Child(bank, addr[SUBARRAY]);
    bank.children[addr[SUBARRAY]]
  }

  // --- What a request decodes to. ---

  lemma DecodePasses(node: Dram, cmd: nat, addr: seq<int>)
    requires DsarpTree(node) && RowInvariant(node) && node.Aims(addr)
    requires addr[node.level + 1] >= 0 && |node.children| != 0 && Prereq(node, cmd, addr[node.level + 1]) == NONE
    ensures var child := node.children[addr[node.level + 1]];
            DsarpTree(child) && RowInvariant(child) && child.Aims(addr)
                && Decode(node, cmd, addr) == Decode(child, cmd, addr)
  {
    node.AimsBelow(addr);
    Child(node, addr[node.level + 1]);
    Below(node, addr[node.level + 1]);
  }

  lemma DecodeStops(node: Dram, cmd: nat, addr: seq<int>)
    requires DsarpTree(node) && RowInvariant(node) && node.Aims(addr) && Prereq(node, cmd, addr[node.level + 1]) != NONE
    ensures Decode(node, cmd, addr) == Prereq(node, cmd, addr[node.level + 1])
  {}

  // A subarray that its bank names is the one that is open.
  lemma NamedIsOpen(b: Snapshot, subs: seq<Snapshot>, k: int)
    requires Nested(b, subs) && k in b.rows
    ensures b.state == Opened && OpenAt(b, subs, k)
  {
    var i :| OpenAt(b, subs, i);
    OneKey(b.rows, i, k);
  }

  lemma OneKey(m: map<int, State>, i: int, k: int)
    requires |m| == 1 && i in m && k in m
    ensures i == k
  {
    assert |m.Keys - {i}| == 0;
  }

  /** Nested open state: a bank is opened exactly when it names one of its subarrays, that one is opened with exactly
      one row, and no other subarray is opened. */
  lemma NestedAgreement(b: Snapshot, subs: seq<Snapshot>)
    requires Nested(b, subs)
    ensures b.state == Opened <==> |b.rows| == 1
    ensures b.state == Opened <==> exists i :: OpenAt(b, subs, i)
    ensures forall i, j :: OpenAt(b, subs, i) && OpenAt(b, subs, j) ==> i == j
    ensures forall i | 0 <= i < |subs| ::
              (subs[i].state == Opened <==> i in b.rows) && (subs[i].state == Opened ==> |subs[i].rows| == 1)
  {
    forall i, j | OpenAt(b, subs, i) && OpenAt(b, subs, j) ensures i == j { OneKey(b.rows, i, j); }
    forall i | 0 <= i < |subs|
      ensures (subs[i].state == Opened <==> i in b.rows) && (subs[i].state == Opened ==> |subs[i].rows| == 1)
    {
      if i in b.rows { NamedIsOpen(b, subs, i); }
    }
  }

  lemma BankNested(channel: Dram, addr: seq<int>)
    requires AimsAtBank(channel, addr) && RowInvariant(channel)
    ensures Nested(Snap(BankOf(channel, addr)), Subs(BankOf(channel, addr)))
  {
    assert NodeOk(BankOf(channel, addr));
  }

  // What a bank and its addressed subarray demand before a column command.
  function BankDemand(bank: Dram, cmd: nat, sub: int, row: int): nat
    reads bank, set k | 0 <= k < |bank.children| :: bank.children[k]
  {
    if bank.state == Closed then ACT
    else if sub !in bank.row_state then PRE
    else if 0 <= sub < |bank.children| && row in bank.children[sub].row_state then cmd
    else PRE
  }

  lemma DecodeBank(channel: Dram, cmd: nat, addr: seq<int>)
    requires AimsAtRow(channel, addr) && RowInvariant(channel) && (cmd == RD || cmd == WR)
    ensures RowInvariant(BankOf(channel, addr))
    ensures Decode(BankOf(channel, addr), cmd, addr) ==
        BankDemand(BankOf(channel, addr), cmd, addr[SUBARRAY], addr[ROW])
  {
    var bank, sub := BankOf(channel, addr), SubOf(channel, addr);
    assert RowInvariant(bank);
    assert |bank.children| != 0;
    BankNested(channel, addr);
    hide Dram.Branch, Dram.Tree, DsarpTree, RowInvariant, Decode, BankOf, SubOf, Nested;
    if bank.state != Closed && addr[SUBARRAY] in bank.row_state {
      NamedIsOpen(Snap(bank), Subs(bank), addr[SUBARRAY]);
      DecodePasses(bank, cmd, addr);
      DecodeStops(sub, cmd, addr);
    } else {
      BankState(bank);
      DecodeStops(bank, cmd, addr);
    }
  }

  lemma BankState(bank: Dram)
    requires Nested(Snap(bank), Subs(bank))
    ensures bank.state == Closed || bank.state == Opened
    ensures bank.state == Closed ==> AllShut(bank)
  {
    assert forall s | 0 <= s < |bank.children| :: Subs(bank)[s] == Snap(bank.children[s]);
  }

  /** Which command a read or write yields. That the subarray is never found closed under a bank that names it
      is due to the nesting. */
  lemma DecodeColumn(channel: Dram, cmd: nat, addr: seq<int>)
    requires AimsAtRow(channel, addr) && RowInvariant(channel) && (cmd == RD || cmd == WR)
    ensures var rank := RankOf(channel, addr);
            Decode(channel, cmd, addr) ==
              if rank.state == SelfRefresh then SRX
              else if rank.state != PowerUp then PDX
              else BankDemand(BankOf(channel, addr), cmd, addr[SUBARRAY], addr[ROW])
  {
    var rank := RankOf(channel, addr);
    assert NodeOk(rank);
    DecodePasses(channel, cmd, addr);
    if rank.state == PowerUp {
      DecodePasses(rank, cmd, addr);
      DecodeBank(channel, cmd, addr);
    } else {
      DecodeStops(rank, cmd, addr);
    }
  }

  // Which command the refresh of one bank yields.
  lemma DecodeRefreshBank(channel: Dram, addr: seq<int>)
    requires AimsAtBank(channel, addr) && RowInvariant(channel)
    ensures Decode(channel, REFPB, addr) == if BankOf(channel, addr).state == Closed then REFPB else PRE
  {
    var rank := RankOf(channel, addr);
    DecodePasses(channel, REFPB, addr);
    DecodePasses(rank, REFPB, addr);
    DecodeStops(BankOf(channel, addr), REFPB, addr);
  }

  lemma DecodeRank(channel: Dram, cmd: nat, addr: seq<int>)
    requires DsarpTree(channel) && channel.level == CHANNEL && channel.Aims(addr) && addr[RANK] >= 0
    requires RowInvariant(channel) && (cmd == REF || cmd == PDE || cmd == SRE)
    ensures var rank := RankOf(channel, addr);
            Decode(channel, cmd, addr) ==
              if cmd == REF then if AnyBankOpen(rank) then PREA else REF
              else if cmd == PDE then if rank.state == SelfRefresh then SRX else PDE
              else if rank.state == ActPowerDown || rank.state == PrePowerDown then PDX else SRE
  {
    var rank := RankOf(channel, addr);
    assert NodeOk(rank);
    DecodePasses(channel, cmd, addr);
    DecodeStops(rank, cmd, addr);
  }

  // --- Safety. ---

  // The commands the controller may issue: one decoded from a request, or a precharge its row policy picked.
  ghost predicate Issuable(channel: Dram, request: nat, cmd: nat, addr: seq<int>)
    requires DsarpTree(channel) && channel.level == CHANNEL && RowInvariant(channel)
    reads channel.nodes
  {
    && channel.Aims(addr) && addr[RANK] >= 0
    && (if request == RD || request == WR then AimsAtRow(channel, addr) && cmd == Decode(channel, request, addr)
        else if request == REFPB then AimsAtBank(channel, addr) && cmd == Decode(channel, request, addr)
        else if request == REF || request == PDE || request == SRE then cmd == Decode(channel, request, addr)
        else request == cmd == PRE && AimsAtBank(channel, addr))
  }

  ghost predicate AllShut(bank: Dram)
    reads bank, set k | 0 <= k < |bank.children| :: bank.children[k]
  {
    Snap(bank) == SHUT && forall s | 0 <= s < |bank.children| :: Snap(bank.children[s]) == SHUT
  }

  // The addressed bank names the addressed subarray, alone, and that one has the addressed row open, alone.
  ghost predicate RowOpen(channel: Dram, addr: seq<int>)
    reads channel.nodes
  {
    AimsAtRow(channel, addr) &&
    var bank := BankOf(channel, addr);
    assert forall k | 0 <= k < |bank.children| :: bank.children[k] in bank.nodes;
    OpenAt(Snap(bank), Subs(bank), addr[SUBARRAY]) && addr[ROW] in SubOf(channel, addr).row_state
  }

  // The addressed bank is closed with all its subarrays.
  ghost predicate BankShut(channel: Dram, addr: seq<int>)
    reads channel.nodes
  {
    AimsAtRow(channel, addr) &&
    var bank := BankOf(channel, addr);
    assert forall k | 0 <= k < |bank.children| :: bank.children[k] in bank.nodes;
    AllShut(bank)
  }

  ghost predicate BankClosed(channel: Dram, addr: seq<int>)
    reads channel.nodes
  {
    AimsAtBank(channel, addr) && BankOf(channel, addr).state == Closed
  }

  // All banks of the addressed rank are closed.
  ghost predicate BanksShut(channel: Dram, addr: seq<int>)
    requires DsarpTree(channel) && channel.level == CHANNEL && channel.Aims(addr) && addr[RANK] >= 0
    reads channel.nodes
  {
    var rank := RankOf(channel, addr);
    assert forall k | 0 <= k < |rank.children| :: rank.children[k] in rank.nodes;
    !AnyBankOpen(rank)
  }

  /** A column command finds its own row open, and no other in its bank; ACT goes to a bank that is closed with all
      its subarrays; REF finds all banks of the rank closed, and REFPB its bank. */
  ghost predicate Safe(channel: Dram, cmd: nat, addr: seq<int>)
    requires DsarpTree(channel) && channel.level == CHANNEL && channel.Aims(addr) && addr[RANK] >= 0
    reads channel.nodes
  {
    && Reaches(cmd, addr) && cmd != RDA && cmd != WRA
    && (cmd == RD || cmd == WR ==> RowOpen(channel, addr))
    && (cmd == ACT ==> BankShut(channel, addr))
    && (cmd == REF ==> BanksShut(channel, addr))
    && (cmd == REFPB ==> BankClosed(channel, addr))
  }

  // Commands that are safe wherever their address reaches.
  lemma AlwaysSafe(channel: Dram, cmd: nat, addr: seq<int>)
    requires DsarpTree(channel) && channel.level == CHANNEL && channel.Aims(addr) && addr[RANK] >= 0
    requires cmd == PREA || cmd == PDE || cmd == PDX || cmd == SRE || cmd == SRX || (cmd == PRE && addr[BANK] >= 0)
    ensures Safe(channel, cmd, addr)
  {
    ReachesDown(cmd, addr);
    hide RowOpen, BankShut, BankClosed, BanksShut, Reaches;
  }

  lemma ReachesDown(cmd: nat, addr: seq<int>)
    requires |addr| == LEVELS && cmd < NONE && addr[RANK] >= 0
    requires SCOPE[cmd] >= BANK ==> addr[BANK] >= 0
    requires SCOPE[cmd] >= SUBARRAY ==> addr[SUBARRAY] >= 0
    ensures Reaches(cmd, addr)
  {}

  lemma SafeColumn(channel: Dram, cmd: nat, addr: seq<int>)
    requires AimsAtRow(channel, addr) && RowInvariant(channel) && (cmd == RD || cmd == WR)
    requires var bank := BankOf(channel, addr);
             && bank.state != Closed && addr[SUBARRAY] in bank.row_state
             && 0 <= addr[SUBARRAY] < |bank.children| && addr[ROW] in bank.children[addr[SUBARRAY]].row_state
    ensures Safe(channel, cmd, addr)
  {
    BankNested(channel, addr);
    var bank := BankOf(channel, addr);
    NamedIsOpen(Snap(bank), Subs(bank), addr[SUBARRAY]);
    assert SubOf(channel, addr) == bank.children[addr[SUBARRAY]];
    assert RowOpen(channel, addr);
    ReachesDown(cmd, addr);
    hide RowOpen, BankShut, BankClosed, BanksShut, Reaches;
  }

  lemma SafeActivate(channel: Dram, addr: seq<int>)
    requires AimsAtRow(channel, addr) && RowInvariant(channel) && BankOf(channel, addr).state == Closed
    ensures Safe(channel, ACT, addr)
  {
    BankNested(channel, addr);
    BankState(BankOf(channel, addr));
    assert BankShut(channel, addr);
    ReachesDown(ACT, addr);
    hide RowOpen, BankShut, BankClosed, BanksShut, Reaches;
  }

  lemma ColumnSafety(channel: Dram, request: nat, addr: seq<int>)
    requires AimsAtRow(channel, addr) && RowInvariant(channel) && (request == RD || request == WR)
    ensures Safe(channel, Decode(channel, request, addr), addr)
  {
    DecodeColumn(channel, request, addr);
    var cmd := Decode(channel, request, addr);
    hide Dram.Branch, Dram.Tree, DsarpTree, RowInvariant, Decode, BankOf, RankOf, SubOf, RowOpen, BankShut,
         BanksShut, BankClosed, Safe;
    if cmd == ACT {
      SafeActivate(channel, addr);
    } else if cmd == RD || cmd == WR {
      SafeColumn(channel, cmd, addr);
    } else {
      AlwaysSafe(channel, cmd, addr);
    }
  }

  lemma RankSafety(channel: Dram, request: nat, addr: seq<int>)
    requires DsarpTree(channel) && channel.level == CHANNEL && channel.Aims(addr) && addr[RANK] >= 0
    requires RowInvariant(channel) && (request == REF || request == PDE || request == SRE)
    ensures Safe(channel, Decode(channel, request, addr), addr)
  {
    DecodeRank(channel, request, addr);
    var cmd := Decode(channel, request, addr);
    if cmd == REF {
      assert BanksShut(channel, addr);
      ReachesDown(REF, addr);
      hide RowOpen, BankShut, BankClosed, BanksShut, Reaches;
      assert Safe(channel, REF, addr);
    } else {
      AlwaysSafe(channel, cmd, addr);
    }
  }

  lemma RefreshSafety(channel: Dram, addr: seq<int>)
    requires AimsAtBank(channel, addr) && RowInvariant(channel)
    ensures Safe(channel, Decode(channel, REFPB, addr), addr)
  {
    DecodeRefreshBank(channel, addr);
    var cmd := Decode(channel, REFPB, addr);
    if cmd == REFPB {
      assert BankClosed(channel, addr);
      ReachesDown(REFPB, addr);
      hide RowOpen, BankShut, BankClosed, BanksShut, Reaches;
      assert Safe(channel, REFPB, addr);
    } else {
      AlwaysSafe(channel, cmd, addr);
    }
  }

  /** Every command that may be issued is safe; in particular the closed-bank assertion of REFPB never fires. */
  lemma NestedSafety(channel: Dram, request: nat, cmd: nat, addr: seq<int>)
    requires DsarpTree(channel) && channel.level == CHANNEL && RowInvariant(channel)
        && Issuable(channel, request, cmd, addr)
    ensures Safe(channel, cmd, addr)
  {
    hide Dram.Branch, Dram.Tree, DsarpTree, RowInvariant, Decode, BankOf, RankOf, SubOf, RowOpen, BankShut,
         BanksShut, BankClosed, Safe;
    if request == RD || request == WR {
      ColumnSafety(channel, request, addr);
    } else if request == REFPB {
      RefreshSafety(channel, addr);
    } else if request == REF || request == PDE || request == SRE {
      RankSafety(channel, request, addr);
    } else {
      AlwaysSafe(channel, cmd, addr);
    }
  }

  // The addressed bank is the only bank on the address.
  lemma OnlyBank(channel: Dram, addr: seq<int>, n: Dram)
    requires AimsAtBank(channel, addr) && n in channel.nodes && n.level == BANK && n.path <= addr
    ensures n == BankOf(channel, addr)
  {
    var rank, bank := RankOf(channel, addr), BankOf(channel, addr);
    channel.AimsBelow(addr);
    assert n in rank.nodes - {rank};
    rank.AimsBelow(addr);
    assert n in bank.nodes;
    bank.Extends(n);
  }

  // What a safe command does to one bank and its subarrays.
  lemma KeepsNested(channel: Dram, cmd: nat, addr: seq<int>, n: Dram, powerDown: State)
    requires DsarpTree(channel) && channel.level == CHANNEL && RowInvariant(channel) && channel.Aims(addr)
        && addr[RANK] >= 0
    requires Safe(channel, cmd, addr) && n in channel.nodes && n.level == BANK
    ensures |n.path| == BANK + 1
    ensures Nested(After(cmd, addr, n.path, Snap(n), powerDown), AfterSubs(cmd, addr, n.path, Subs(n), powerDown))
  {
    assert NodeOk(n);
    if (cmd == ACT || cmd == REFPB) && n.path <= addr {
      OnlyBank(channel, addr, n);
      if cmd == ACT { assert SubOf(channel, addr) == n.children[addr[SUBARRAY]]; }
    }
    NestedAfter(cmd, addr, n.path, Snap(n), Subs(n), powerDown);
  }

  // Every bank will be nested.
  ghost predicate WillNest(channel: Dram, cmd: nat, addr: seq<int>, powerDown: State)
    requires DsarpTree(channel) && |addr| == LEVELS
    reads channel.nodes
  {
    forall n | n in channel.nodes && n.level == BANK ::
      assert forall i | 0 <= i < |n.children| :: n.children[i] in n.nodes && n.nodes <= channel.nodes;
      |n.path| == BANK + 1 && Nested(After(cmd, addr, n.path, Snap(n), powerDown),
          AfterSubs(cmd, addr, n.path, Subs(n), powerDown))
  }

  lemma AllKeepNested(channel: Dram, cmd: nat, addr: seq<int>, powerDown: State)
    requires DsarpTree(channel) && channel.level == CHANNEL && RowInvariant(channel) && channel.Aims(addr)
        && addr[RANK] >= 0
    requires Safe(channel, cmd, addr)
    ensures WillNest(channel, cmd, addr, powerDown)
  {
    hide Safe, Nested, After, RowInvariant;
    forall n | n in channel.nodes && n.level == BANK
      ensures |n.path| == BANK + 1
      ensures Nested(After(cmd, addr, n.path, Snap(n), powerDown), AfterSubs(cmd, addr, n.path, Subs(n), powerDown))
    {
      KeepsNested(channel, cmd, addr, n, powerDown);
    }
  }

  lemma SafeRefresh(channel: Dram, cmd: nat, addr: seq<int>)
    requires DsarpTree(channel) && channel.level == CHANNEL && channel.Aims(addr) && addr[RANK] >= 0
        && Safe(channel, cmd, addr)
    ensures RefreshesClosed(channel, cmd, addr)
  {
    if cmd == REFPB {
      forall n | n in channel.nodes && n.level == BANK && n.path <= addr ensures n.state == Closed {
        OnlyBank(channel, addr, n);
      }
    }
  }

  /** Nested open state on every run: whatever command may be issued, every bank and its subarrays agree after it. */
  method Issue(channel: Dram, request: nat, cmd: nat, addr: seq<int>)
    requires DsarpTree(channel) && channel.level == CHANNEL && RowInvariant(channel)
        && Issuable(channel, request, cmd, addr)
    modifies channel.nodes`state, channel.nodes`row_state
    ensures RowInvariant(channel)
    ensures forall n | n in channel.nodes ::
              Snap(n) == After(cmd, addr, n.path, old(Snap(n)), old(PowerDownState(channel, addr)))
  {
    NestedSafety(channel, request, cmd, addr);
    SafeRefresh(channel, cmd, addr);
    hide RowInvariant, RefreshesClosed, WillNest, After, Issuable;
    ghost var powerDown := PowerDownState(channel, addr);
    AllKeepNested(channel, cmd, addr, powerDown);
    IssueSafe(channel, cmd, addr, powerDown);
  }

  lemma KidsOf(channel: Dram)
    requires DsarpTree(channel)
    ensures forall n, i | n in channel.nodes && 0 <= i < |n.children| ::
              n.children[i] in channel.nodes && n.children[i].path == n.path + [i]
  {
    forall n, i | n in channel.nodes && 0 <= i < |n.children|
      ensures n.children[i] in channel.nodes && n.children[i].path == n.path + [i]
    {
      assert n.Branch();
    }
  }

  method IssueSafe(channel: Dram, cmd: nat, addr: seq<int>, ghost powerDown: State)
    requires DsarpTree(channel) && channel.level == CHANNEL && channel.Aims(addr) && Reaches(cmd, addr)
    requires RefreshesClosed(channel, cmd, addr) && RowInvariant(channel)
    requires WillNest(channel, cmd, addr, powerDown) && powerDown == PowerDownState(channel, addr)
    modifies channel.nodes`state, channel.nodes`row_state
    ensures RowInvariant(channel)
    ensures forall n | n in channel.nodes :: Snap(n) == After(cmd, addr, n.path, old(Snap(n)), powerDown)
  {
    KidsOf(channel);
    assert forall n | n in channel.nodes :: |n.path| == n.level + 1;
    UpdateState(channel, cmd, addr, powerDown);
    hide Dram.Branch, Dram.Tree, Reaches, RefreshesClosed, After, Nested, DsarpTree;
    forall n | n in channel.nodes
      ensures Subs(n) == AfterSubs(cmd, addr, n.path, old(Subs(n)), powerDown)
    {
      forall i | 0 <= i < |n.children|
        ensures Subs(n)[i] == AfterSubs(cmd, addr, n.path, old(Subs(n)), powerDown)[i]
      {
        assert n.children[i] in channel.nodes && n.children[i].path == n.path + [i];
      }
    }
    forall n | n in channel.nodes ensures NodeOk(n) {
      assert old(NodeOk(n));
      PowerStays(cmd, addr, n.path, old(Snap(n)), powerDown);
      assert Snap(n) == After(cmd, addr, n.path, old(Snap(n)), powerDown);
    }
  }

  lemma PowerStays(cmd: nat, addr: seq<int>, p: Path, s: Snapshot, powerDown: State)
    requires |addr| == LEVELS && PowerState(powerDown)
    ensures |p| == RANK + 1 && PowerState(s.state) ==> PowerState(After(cmd, addr, p, s, powerDown).state)
  {}

  // A new channel: every bank and subarray closed, every rank powered up.
  method NewChannel(spec: Spec, count: seq<nat>, id: int) returns (channel: Dram)
    requires spec.Valid() && spec.numCmds == NONE && |spec.timing| == LEVELS && spec.scope == SCOPE
    requires |count| == LEVELS && count[RANK] > 0 && count[BANK] > 0 && count[SUBARRAY] > 0
    ensures fresh(channel.nodes) && channel.level == CHANNEL && DsarpTree(channel) && RowInvariant(channel)
  {
    channel := new Dram(spec, Org(START, count, ROW), CHANNEL, id, []);
    NewTree(channel, Org(START, count, ROW));
  }

  lemma NewTree(channel: Dram, org: Org)
    requires channel.Tree() && channel.level == CHANNEL && channel.spec.numCmds == NONE
    requires |channel.spec.timing| == LEVELS && channel.spec.scope == SCOPE
    requires org.start == START && |org.count| == LEVELS && org.rowLevel == ROW
    requires org.count[RANK] > 0 && org.count[BANK] > 0 && org.count[SUBARRAY] > 0
    requires forall n | n in channel.nodes :: n.Initial(org)
    ensures DsarpTree(channel) && RowInvariant(channel)
  {
    assert forall n | n in channel.nodes :: n.Initial(org) && n.Branch();
    assert DsarpTree(channel);
    forall n | n in channel.nodes ensures NodeOk(n) {
      forall i | 0 <= i < |n.children| ensures Snap(n.children[i]) == Snapshot(START[n.level + 1], map[]) {
        Child(n, i);
        assert n.children[i] in channel.nodes && n.children[i].Initial(org);
      }
    }
  }
}
