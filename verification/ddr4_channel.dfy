/** A DDR4 channel in operation: commands decoded from requests, checked against the timing index, and
    issued. Row safety holds on every run, and no four-activate window is ever exceeded. */
module Ddr4Channel {
  import opened TimingHistory
  import opened TimingWindows
  import opened DramTree
  import opened Ddr4Table
  import opened Ddr4State

  function LastClk(h: seq<Event>): nat {
    if h == [] then 0 else h[|h| - 1].clk
  }

  // What holds of a channel after the commands of `h`.
  ghost predicate Running(channel: Dram, h: seq<Event>)
    reads channel.nodes
  {
    && Ddr4Tree(channel) && channel.level == CHANNEL && RowInvariant(channel)
    && channel.Synced(h) && Chronological(h) && channel.cur_clk == LastClk(h)
    && forall n | n in channel.nodes :: LegalAt(channel.spec, n.path, h)
  }

  // A full address: it names an existing rank, bank group, bank and some row.
  ghost predicate BankAddress(channel: Dram, addr: seq<int>) {
    && Ddr4Tree(channel) && channel.level == CHANNEL && channel.Aims(addr)
    && forall l | 0 < l < LEVELS :: addr[l] >= 0
  }

  function RankOf(channel: Dram, addr: seq<int>): (rank: Dram)
    requires Ddr4Tree(channel) && channel.level == CHANNEL && channel.Aims(addr) && addr[RANK] >= 0
    ensures Ddr4Tree(rank) && rank in channel.nodes && rank.level == RANK && rank.path <= addr && rank.Aims(addr)
    ensures rank.nodes <= channel.nodes
  {
    channel.AimsBelow(addr);
    Child(channel, addr[RANK]);
    channel.children[addr[RANK]]
  }

  function GroupOf(channel: Dram, addr: seq<int>): (group: Dram)
    requires BankAddress(channel, addr)
    ensures Ddr4Tree(group) && group in channel.nodes && group.level == BANKGROUP && group.Aims(addr)
    ensures group.nodes <= channel.nodes
  {
    var rank := RankOf(channel, addr);
    rank.AimsBelow(addr);
    Child(rank, addr[BANKGROUP]);
    rank.children[addr[BANKGROUP]]
  }

  function BankOf(channel: Dram, addr: seq<int>): (bank: Dram)
    requires BankAddress(channel, addr)
    ensures Ddr4Tree(bank) && bank in channel.nodes && bank.level == BANK && bank.path <= addr && bank.Aims(addr)
    ensures bank.nodes <= channel.nodes
  {
    var group := GroupOf(channel, addr);
    group.AimsBelow(addr);
    Child(group, addr[BANK]);
    group.children[addr[BANK]]
  }

  // One level of the walk: on to the addressed child, or stop at a prerequisite.
  lemma DecodePasses(node: Dram, cmd: nat, addr: seq<int>)
    requires Ddr4Tree(node) && RowInvariant(node) && node.Aims(addr)
    requires addr[node.level + 1] >= 0 && |node.children| != 0 && Prereq(node, cmd, addr[node.level + 1]) == NONE
    ensures var child := node.children[addr[node.level + 1]];
            Ddr4Tree(child) && RowInvariant(child) && child.Aims(addr)
                && Decode(node, cmd, addr) == Decode(child, cmd, addr)
  {
    node.AimsBelow(addr);
    Child(node, addr[node.level + 1]);
  }

  lemma DecodeStops(node: Dram, cmd: nat, addr: seq<int>)
    requires Ddr4Tree(node) && RowInvariant(node) && node.Aims(addr) && Prereq(node, cmd, addr[node.level + 1]) != NONE
    ensures Decode(node, cmd, addr) == Prereq(node, cmd, addr[node.level + 1])
  {}

  // What a bank demands before a column command.
  function BankDemand(bank: Dram, cmd: nat, row: int): nat
    reads bank`state, bank`row_state
  {
    if bank.state == Closed then ACT else if row in bank.row_state then cmd else PRE
  }

  lemma DecodeGroup(channel: Dram, cmd: nat, addr: seq<int>)
    requires BankAddress(channel, addr) && RowInvariant(channel) && (cmd == RD || cmd == WR)
    ensures RowInvariant(GroupOf(channel, addr))
    ensures Decode(GroupOf(channel, addr), cmd, addr) == BankDemand(BankOf(channel, addr), cmd, addr[ROW])
  {
    var group, bank := GroupOf(channel, addr), BankOf(channel, addr);
    assert StateOk(BANK, Snap(bank));
    DecodePasses(group, cmd, addr);
    DecodeStops(bank, cmd, addr);
  }

  /** Which command a read or write yields, from the states of its rank and bank alone. */
  lemma DecodeColumn(channel: Dram, cmd: nat, addr: seq<int>)
    requires BankAddress(channel, addr) && RowInvariant(channel) && (cmd == RD || cmd == WR)
    ensures var rank := RankOf(channel, addr);
            Decode(channel, cmd, addr) ==
              if rank.state == SelfRefresh then SRX
              else if rank.state != PowerUp then PDX
              else BankDemand(BankOf(channel, addr), cmd, addr[ROW])
  {
    var rank := RankOf(channel, addr);
    assert StateOk(RANK, Snap(rank));
    DecodePasses(channel, cmd, addr);
    if rank.state == PowerUp {
      DecodePasses(rank, cmd, addr);
      DecodeGroup(channel, cmd, addr);
    } else {
      DecodeStops(rank, cmd, addr);
    }
  }

  // Which command a rank-level request (refresh, power down, self refresh) yields.
  lemma DecodeRank(channel: Dram, cmd: nat, addr: seq<int>)
    requires Ddr4Tree(channel) && channel.level == CHANNEL && channel.Aims(addr) && addr[RANK] >= 0
    requires RowInvariant(channel) && (cmd == REF || cmd == PDE || cmd == SRE)
    ensures var rank := RankOf(channel, addr);
            Decode(channel, cmd, addr) ==
              if cmd == REF then if AnyOpen(rank) then PREA else REF
              else if cmd == PDE then if rank.state == SelfRefresh then SRX else PDE
              else if rank.state == ActPowerDown || rank.state == PrePowerDown then PDX else SRE
  {
    var rank := RankOf(channel, addr);
    assert StateOk(RANK, Snap(rank));
    DecodePasses(channel, cmd, addr);
    DecodeStops(rank, cmd, addr);
  }

  // The commands the controller may issue: one decoded from a request, or a precharge its row policy picked.
  ghost predicate Issuable(channel: Dram, request: nat, cmd: nat, addr: seq<int>)
    requires Ddr4Tree(channel) && channel.level == CHANNEL && RowInvariant(channel)
    reads channel.nodes
  {
    && channel.Aims(addr) && addr[RANK] >= 0
    && (if request == RD || request == WR then BankAddress(channel, addr) && cmd == Decode(channel, request, addr)
        else if request == REF || request == PDE || request == SRE then cmd == Decode(channel, request, addr)
        else request == cmd == PRE && BankAddress(channel, addr))
  }

  // The row is open in the addressed bank, alone.
  ghost predicate RowOpen(channel: Dram, addr: seq<int>)
    requires BankAddress(channel, addr)
    reads channel.nodes
  {
    BankOf(channel, addr).state == Opened && BankOf(channel, addr).row_state.Keys == {addr[ROW]}
  }

  ghost predicate BankClosed(bank: Dram)
    reads bank
  {
    bank.state == Closed && bank.row_state == map[]
  }

  /** Row safety: a column command finds its own row open and no other, ACT goes to a closed bank of a
      powered-up rank, and REF to a rank whose banks are all closed. */
  ghost predicate Safe(channel: Dram, cmd: nat, addr: seq<int>)
    requires Ddr4Tree(channel) && channel.level == CHANNEL && channel.Aims(addr) && addr[RANK] >= 0
    reads channel.nodes
  {
    && Reaches(cmd, addr) && cmd != RDA && cmd != WRA
    && (cmd == RD || cmd == WR || cmd == ACT ==> BankAddress(channel, addr) && RankOf(channel, addr).state == PowerUp)
    && (cmd == RD || cmd == WR ==> RowOpen(channel, addr))
    && (cmd == ACT ==> BankClosed(BankOf(channel, addr)))
    && (cmd == REF ==> forall n | n in RankOf(channel, addr).nodes && n.level == BANK :: BankClosed(n))
  }

  lemma ColumnSafety(channel: Dram, request: nat, addr: seq<int>)
    requires BankAddress(channel, addr) && RowInvariant(channel) && (request == RD || request == WR)
    ensures Safe(channel, Decode(channel, request, addr), addr)
  {
    DecodeColumn(channel, request, addr);
    var bank := BankOf(channel, addr);
    assert StateOk(BANK, Snap(bank));
    if addr[ROW] in bank.row_state { OnlyKey(bank.row_state, addr[ROW]); }
  }

  lemma RankSafety(channel: Dram, request: nat, addr: seq<int>)
    requires Ddr4Tree(channel) && channel.level == CHANNEL && channel.Aims(addr) && addr[RANK] >= 0
    requires RowInvariant(channel) && (request == REF || request == PDE || request == SRE)
    ensures Safe(channel, Decode(channel, request, addr), addr)
  {
    DecodeRank(channel, request, addr);
    var rank := RankOf(channel, addr);
    if Decode(channel, request, addr) == REF {
      AllBanksClosed(channel, rank);
    }
  }

  lemma AllBanksClosed(channel: Dram, rank: Dram)
    requires Ddr4Tree(channel) && RowInvariant(channel) && rank in channel.nodes
    requires Ddr4Tree(rank) && rank.level == RANK && !AnyOpen(rank)
    ensures forall n | n in rank.nodes && n.level == BANK :: BankClosed(n)
  {
    BanksByPath(rank);
    forall n | n in rank.nodes && n.level == BANK ensures BankClosed(n) {
      assert BankAt(rank, n.path[2], n.path[3]).state == Closed;
      assert n in channel.nodes && StateOk(BANK, Snap(n));
    }
  }

  lemma RowSafety(channel: Dram, request: nat, cmd: nat, addr: seq<int>)
    requires Ddr4Tree(channel) && channel.level == CHANNEL && RowInvariant(channel)
        && Issuable(channel, request, cmd, addr)
    ensures Safe(channel, cmd, addr)
  {
    if request == RD || request == WR {
      ColumnSafety(channel, request, addr);
    } else if request == REF || request == PDE || request == SRE {
      RankSafety(channel, request, addr);
    }
  }

  lemma OnlyKey(m: map<int, State>, k: int)
    requires |m| == 1 && k in m
    ensures m.Keys == {k}
  {
    assert |m.Keys - {k}| == 0;
  }

  // The addressed bank and rank are the only nodes of their levels on the address.
  lemma OnlyBank(channel: Dram, addr: seq<int>, n: Dram)
    requires BankAddress(channel, addr) && n in channel.nodes && n.level == BANK && n.path <= addr
    ensures n == BankOf(channel, addr)
  {
    var rank, group, bank := RankOf(channel, addr), GroupOf(channel, addr), BankOf(channel, addr);
    channel.AimsBelow(addr);
    assert n in rank.nodes - {rank};
    rank.AimsBelow(addr);
    assert n in group.nodes - {group};
    group.AimsBelow(addr);
    bank.Extends(n);
  }

  lemma KeepsRows(channel: Dram, cmd: nat, addr: seq<int>, n: Dram, powerDown: State)
    requires Ddr4Tree(channel) && channel.level == CHANNEL && RowInvariant(channel) && channel.Aims(addr)
        && n in channel.nodes
    requires powerDown == ActPowerDown || powerDown == PrePowerDown
    requires cmd == ACT ==> BankAddress(channel, addr) && BankClosed(BankOf(channel, addr))
    ensures StateOk(n.level, After(cmd, addr, n.path, Snap(n), powerDown))
  {
    assert StateOk(n.level, Snap(n));
    if cmd == ACT && n.level == BANK && n.path <= addr {
      OnlyBank(channel, addr, n);
    }
  }

  lemma StaysLegal(channel: Dram, n: Dram, cmd: nat, addr: seq<int>, clk: nat, h: seq<Event>)
    requires Running(channel, h) && channel.Aims(addr) && cmd < NONE && LastClk(h) <= clk && n in channel.nodes
    requires channel.Check(cmd, addr, clk)
    ensures LegalAt(channel.spec, n.path, h + [Event(cmd, addr, clk)])
  {
    var all := h + [Event(cmd, addr, clk)];
    channel.CheckIsNaive(cmd, addr, clk, h);
    assert all[..|h|] == h;
  }

  lemma AllStayLegal(channel: Dram, cmd: nat, addr: seq<int>, clk: nat, h: seq<Event>)
    requires Running(channel, h) && channel.Aims(addr) && cmd < NONE && LastClk(h) <= clk
        && channel.Check(cmd, addr, clk)
    ensures Chronological(h + [Event(cmd, addr, clk)])
    ensures forall n | n in channel.nodes :: LegalAt(channel.spec, n.path, h + [Event(cmd, addr, clk)])
  {
    var all := h + [Event(cmd, addr, clk)];
    assert all[..|h|] == h;
    forall n | n in channel.nodes ensures LegalAt(channel.spec, n.path, all) {
      StaysLegal(channel, n, cmd, addr, clk, h);
    }
  }

  lemma KeepsRowInvariant(channel: Dram, request: nat, cmd: nat, addr: seq<int>)
    requires Ddr4Tree(channel) && channel.level == CHANNEL && RowInvariant(channel)
        && Issuable(channel, request, cmd, addr)
    ensures forall n | n in channel.nodes ::
              StateOk(n.level, After(cmd, addr, n.path, Snap(n), PowerDownState(channel, addr)))
  {
    RowSafety(channel, request, cmd, addr);
    forall n | n in channel.nodes
      ensures StateOk(n.level, After(cmd, addr, n.path, Snap(n), PowerDownState(channel, addr)))
    {
      KeepsRows(channel, cmd, addr, n, PowerDownState(channel, addr));
    }
  }

  // The state half of issuing a command: the timing index is not touched.
  method IssueState(channel: Dram, request: nat, cmd: nat, addr: seq<int>)
    requires Ddr4Tree(channel) && channel.level == CHANNEL && RowInvariant(channel)
    requires Issuable(channel, request, cmd, addr)
    modifies channel.nodes`state, channel.nodes`row_state
    ensures RowInvariant(channel)
    ensures forall n | n in channel.nodes ::
              Snap(n) == After(cmd, addr, n.path, old(Snap(n)), old(PowerDownState(channel, addr)))
  {
    KeepsRowInvariant(channel, request, cmd, addr);
    RowSafety(channel, request, cmd, addr);
    UpdateState(channel, cmd, addr);
  }

  // The timing half: the states are not touched.
  method IssueTiming(channel: Dram, cmd: nat, addr: seq<int>, clk: nat, ghost h: seq<Event>, ghost after: seq<Event>)
    requires Ddr4Tree(channel) && channel.level == CHANNEL && RowInvariant(channel) && channel.Synced(h)
    requires cmd < NONE && channel.Aims(addr) && after == h + [Event(cmd, addr, clk)] && Chronological(after)
    requires forall n | n in channel.nodes :: LegalAt(channel.spec, n.path, after)
    modifies channel`cur_clk, channel.nodes`next, channel.nodes`prev
    ensures Running(channel, after)
  {
    hide LegalAt, Chronological, Dram.Branch, Dram.Synced;
    assert LastClk(after) == clk;
    channel.UpdateTiming(cmd, addr, clk, h);
    channel.cur_clk := clk;
  }

  // Issues one command: the state of every node and the timing index of every node move together.
  method Issue(channel: Dram, request: nat, cmd: nat, addr: seq<int>, clk: nat, ghost h: seq<Event>)
    requires Running(channel, h) && Issuable(channel, request, cmd, addr) && LastClk(h) <= clk
    requires cmd < NONE && channel.Check(cmd, addr, clk)
    modifies channel`cur_clk, channel.nodes`state, channel.nodes`row_state, channel.nodes`next, channel.nodes`prev
    ensures Running(channel, h + [Event(cmd, addr, clk)])
    ensures forall n | n in channel.nodes ::
              Snap(n) == After(cmd, addr, n.path, old(Snap(n)), old(PowerDownState(channel, addr)))
  {
    AllStayLegal(channel, cmd, addr, clk, h);
    IssueState(channel, request, cmd, addr);
    IssueTiming(channel, cmd, addr, clk, h, h + [Event(cmd, addr, clk)]);
  }

  // A new channel: every bank closed, every rank powered up, nothing issued.
  method NewChannel(speed: Speed, count: seq<nat>, id: int) returns (channel: Dram)
    requires |count| == LEVELS && count[RANK] > 0 && count[BANKGROUP] > 0 && count[BANK] > 0
    ensures fresh(channel.nodes) && channel.spec == Table(speed) && channel.id == id && Running(channel, [])
  {
    channel := new Dram(Table(speed), Org(START, count, ROW), CHANNEL, id, []);
    NewTree(channel, Org(START, count, ROW));
    NewLegal(channel);
    hide Dram.Tree, Dram.Synced, Ddr4Tree, RowInvariant, LegalAt, Table, Dram.Initial;
  }

  // Every node in its start state.
  lemma NewTree(channel: Dram, org: Org)
    requires channel.Tree() && channel.level == CHANNEL && channel.spec.numCmds == NONE
    requires |channel.spec.timing| == LEVELS && channel.spec.scope == SCOPE
    requires org.start == START && |org.count| == LEVELS && org.rowLevel == ROW
    requires org.count[RANK] > 0 && org.count[BANKGROUP] > 0 && org.count[BANK] > 0
    requires forall n | n in channel.nodes :: n.Initial(org)
    ensures Ddr4Tree(channel) && RowInvariant(channel)
  {
    forall n | n in channel.nodes
      ensures n.level <= BANK && (n.level == BANK <==> |n.children| == 0) && StateOk(n.level, Snap(n))
    {
      assert n.Initial(org) && n.Branch();
    }
  }

  lemma NewLegal(channel: Dram)
    requires channel.Tree()
    ensures forall n | n in channel.nodes :: LegalAt(channel.spec, n.path, [])
  {
    forall n | n in channel.nodes ensures LegalAt(channel.spec, n.path, []) {
      assert n.Branch();
    }
  }

  /** At most four activates of a rank fall in any `nFAW` cycles of any run. */
  lemma FourActivateWindow(speed: Speed, rank: Path, h: seq<Event>, lo: int)
    requires |rank| == RANK + 1 && LegalAt(Table(speed), rank, h) && Chronological(h)
    ensures CountIn(Issues(rank, ACT, h), lo, lo + speed.nFAW) <= 4
  {
    var spec := Table(speed);
    assert spec.timing[RANK][ACT] == RankRow(ACT, speed);
    WindowBound(spec, rank, ACT, 1, h, lo);
  }

  // The rows of GDDR5 from ACT to ACT at a rank: one, four and thirty-two activates back.
  function Gddr5ActRow(nRRD: int, nFAW: int, n32AW: int, nRAS: int): seq<Entry> {
    [Entry(ACT, 1, nRRD, false), Entry(ACT, 4, nFAW, false), Entry(ACT, 32, n32AW, false),
        Entry(PREA, 1, nRAS, false), Entry(PDE, 1, 1, false)]
  }

  // One row of such a table: at most as many activates in its time as it looks back.
  lemma Gddr5Window(spec: Spec, rank: Path, h: seq<Event>, lo: int, k: nat, row: seq<Entry>)
    requires spec.Valid() && |rank| == RANK + 1 <= |spec.timing| && spec.numCmds == NONE && spec.scope == SCOPE
    requires spec.timing[RANK][ACT] == row && k < |row| && row[k].cmd == ACT && !row[k].sibling
    requires LegalAt(spec, rank, h) && Chronological(h)
    ensures CountIn(Issues(rank, ACT, h), lo, lo + row[k].val) <= row[k].dist
  {
    hide LegalAt, Chronological, CountIn, Issues;
    WindowBound(spec, rank, ACT, k, h, lo);
  }

  /** At most four activates in `nFAW` cycles and at most thirty-two in `n32AW`. */
  lemma Gddr5Windows(spec: Spec, rank: Path, h: seq<Event>, lo: int, nRRD: int, nFAW: int, n32AW: int, nRAS: int)
    requires spec.Valid() && |rank| == RANK + 1 <= |spec.timing| && spec.numCmds == NONE && spec.scope == SCOPE
    requires spec.timing[RANK][ACT] == Gddr5ActRow(nRRD, nFAW, n32AW, nRAS)
    requires LegalAt(spec, rank, h) && Chronological(h)
    ensures CountIn(Issues(rank, ACT, h), lo, lo + nFAW) <= 4
    ensures CountIn(Issues(rank, ACT, h), lo, lo + n32AW) <= 32
  {
    hide LegalAt, Chronological, CountIn, Issues, Spec.Valid;
    var row := Gddr5ActRow(nRRD, nFAW, n32AW, nRAS);
    Gddr5Window(spec, rank, h, lo, 1, row);
    Gddr5Window(spec, rank, h, lo, 2, row);
  }
}
