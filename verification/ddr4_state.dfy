/** The DDR4 command state machine on the tree: which command must come first (`Decode`), what a command
    does to bank and rank states (`UpdateState`), and what every run of decoded commands keeps. */
module Ddr4State {
  import opened TimingHistory
  import opened DramTree
  import opened Ddr4Table

  // A DDR4 channel tree down to the banks; it reads nothing mutable.
  ghost predicate Ddr4Tree(node: Dram) {
    && node.Tree() && node.level <= BANK
    && node.spec.numCmds == NONE && |node.spec.timing| == LEVELS && node.spec.scope == SCOPE
    && (forall n | n in node.nodes :: n.level <= BANK && (n.level == BANK <==> |n.children| == 0))
  }

  lemma Child(node: Dram, i: nat)
    requires Ddr4Tree(node) && i < |node.children|
    ensures Ddr4Tree(node.children[i]) && node.children[i].nodes <= node.nodes - {node}
    ensures node.children[i].height < node.height
    ensures node.children[i].level == node.level + 1 && node.children[i].path == node.path + [i]
  {
    assert node.children[i] in node.nodes;
  }

  // Banks are opened or closed and have at most one open row, exactly when opened; ranks are in a power state.
  predicate StateOk(level: nat, s: Snapshot) {
    && (level == BANK ==> (s.state == Closed && s.rows == map[]) || (s.state == Opened && |s.rows| == 1))
    && (level == RANK ==> (s.state == PowerUp || s.state == ActPowerDown || s.state == PrePowerDown
        || s.state == SelfRefresh))
  }

  ghost predicate RowInvariant(node: Dram)
    reads node.nodes`state, node.nodes`row_state
  {
    forall n | n in node.nodes :: StateOk(n.level, Snap(n))
  }

  // Some bank of the rank is not closed.
  predicate AnyOpen(node: Dram)
    requires Ddr4Tree(node) && node.level == RANK
    reads node.nodes`state
  {
    exists g, b | 0 <= g < |node.children| && 0 <= b < |node.children[g].children| ::
      BankAt(node, g, b).state != Closed
  }

  function BankAt(node: Dram, g: nat, b: nat): (bank: Dram)
    requires Ddr4Tree(node) && node.level == RANK && g < |node.children| && b < |node.children[g].children|
    ensures bank in node.nodes && bank.level == BANK && bank.path == node.path + [g, b]
  {
    Child(node, g);
    Child(node.children[g], b);
    node.children[g].children[b]
  }

  // The command that must come before `cmd` at this node, or NONE.
  function Prereq(node: Dram, cmd: nat, id: int): nat
    requires Ddr4Tree(node) && RowInvariant(node)
    reads node.nodes
  {
    assert StateOk(node.level, Snap(node));
    if node.level == RANK && (cmd == RD || cmd == WR) then
      match node.state
      case PowerUp => NONE
      case ActPowerDown => PDX
      case PrePowerDown => PDX
      case SelfRefresh => SRX
    else if node.level == BANK && (cmd == RD || cmd == WR) then
      match node.state
      case Closed => ACT
      case Opened => if id in node.row_state then cmd else PRE
    else if node.level == RANK && cmd == REF then
      if AnyOpen(node) then PREA else REF
    else if node.level == RANK && cmd == PDE then
      match node.state
      case PowerUp => PDE
      case ActPowerDown => PDE
      case PrePowerDown => PDE
      case SelfRefresh => SRX
    else if node.level == RANK && cmd == SRE then
      match node.state
      case PowerUp => SRE
      case ActPowerDown => PDX
      case PrePowerDown => PDX
      case SelfRefresh => SRE
    else NONE
  }

  // Walks down the address until some level demands another command first.
  function Decode(node: Dram, cmd: nat, addr: seq<int>): nat
    requires Ddr4Tree(node) && RowInvariant(node) && node.Aims(addr)
    reads node.nodes
    decreases node.height
  {
    var childId := addr[node.level + 1];
    var first := Prereq(node, cmd, childId);
    if first != NONE then first
    else if childId < 0 || |node.children| == 0 then cmd
    else
      node.AimsBelow(addr);
      Child(node, childId);
      Decode(node.children[childId], cmd, addr)
  }

  // The address reaches down to the level at which the command stops.
  predicate Reaches(cmd: nat, addr: seq<int>)
    requires |addr| == LEVELS
  {
    cmd < NONE && forall l | 0 < l <= SCOPE[cmd] && l <= BANK :: addr[l] >= 0
  }

  // Some bank of the addressed rank is not closed.
  ghost predicate OpenBank(node: Dram, addr: seq<int>)
    requires Ddr4Tree(node) && |addr| == LEVELS
    reads node.nodes`state
  {
    exists n | n in node.nodes :: n.level == BANK && n.path[0] == addr[0] && n.path[RANK] == addr[RANK]
        && n.state != Closed
  }

  // The power-down state that PDE enters.
  ghost function PowerDownState(node: Dram, addr: seq<int>): State
    requires Ddr4Tree(node) && |addr| == LEVELS
    reads node.nodes`state
  {
    if OpenBank(node, addr) then ActPowerDown else PrePowerDown
  }

  lemma AnyOpenIsOpenBank(node: Dram, addr: seq<int>)
    requires Ddr4Tree(node) && node.level == RANK && |addr| == LEVELS && node.path <= addr
    ensures AnyOpen(node) <==> OpenBank(node, addr)
  {
    BanksByPath(node);
    if AnyOpen(node) {
      var g, b :| 0 <= g < |node.children| && 0 <= b < |node.children[g].children|
          && BankAt(node, g, b).state != Closed;
      node.Extends(BankAt(node, g, b));
      assert node.path[0] == addr[0] && node.path[RANK] == addr[RANK];
    }
    if OpenBank(node, addr) {
      var n :| n in node.nodes && n.level == BANK && n.path[0] == addr[0] && n.path[RANK] == addr[RANK]
          && n.state != Closed;
      assert BankAt(node, n.path[2], n.path[3]).state != Closed;
    }
  }

  // Seen from the channel, the banks of the addressed rank are those below the addressed child.
  lemma OpenBankBelow(node: Dram, addr: seq<int>)
    requires Ddr4Tree(node) && node.level == CHANNEL && node.Aims(addr) && addr[RANK] >= 0
    ensures Ddr4Tree(node.children[addr[RANK]])
    ensures OpenBank(node, addr) <==> OpenBank(node.children[addr[RANK]], addr)
  {
    Child(node, addr[RANK]);
    if OpenBank(node, addr) {
      var n :| n in node.nodes && n.level == BANK && n.path[0] == addr[0] && n.path[RANK] == addr[RANK]
          && n.state != Closed;
      assert n.UnderChildOf(node.children, node.path);
    }
  }

  /** What a command does to the state of one node, wherever the node is. */
  function After(cmd: nat, addr: seq<int>, p: Path, s: Snapshot, powerDown: State): Snapshot
    requires |addr| == LEVELS
  {
    if |p| == BANK + 1 && p <= addr && cmd == ACT then Snapshot(Opened, s.rows[addr[ROW] := Opened])
    else if |p| == BANK + 1 && p <= addr && (cmd == PRE || cmd == RDA || cmd == WRA) then Snapshot(Closed, map[])
    else if |p| == BANK + 1 && p[0] == addr[0] && p[RANK] == addr[RANK] && cmd == PREA then Snapshot(Closed, map[])
    else if |p| == RANK + 1 && p <= addr && cmd == PDE then s.(state := powerDown)
    else if |p| == RANK + 1 && p <= addr && (cmd == PDX || cmd == SRX) then s.(state := PowerUp)
    else if |p| == RANK + 1 && p <= addr && cmd == SRE then s.(state := SelfRefresh)
    else s
  }

  // Every bank below a rank is the one its path names.
  lemma BankByPath(node: Dram, n: Dram)
    requires Ddr4Tree(node) && node.level == RANK && n in node.nodes && n.level == BANK
    ensures n.path == node.path + [n.path[2], n.path[3]]
    ensures 0 <= n.path[2] < |node.children| && 0 <= n.path[3] < |node.children[n.path[2]].children|
    ensures n == BankAt(node, n.path[2], n.path[3])
  {
    assert n.UnderChildOf(node.children, node.path);
    var group := node.children[n.path[2]];
    Child(node, n.path[2]);
    assert n.UnderChildOf(group.children, group.path);
    Child(group, n.path[3]);
    group.children[n.path[3]].Extends(n);
  }

  lemma BanksByPath(node: Dram)
    requires Ddr4Tree(node) && node.level == RANK
    ensures forall n | n in node.nodes && n.level == BANK ::
              && 0 <= n.path[2] < |node.children| && 0 <= n.path[3] < |node.children[n.path[2]].children|
              && n == BankAt(node, n.path[2], n.path[3])
  {
    forall n | n in node.nodes && n.level == BANK
      ensures 0 <= n.path[2] < |node.children| && 0 <= n.path[3] < |node.children[n.path[2]].children|
      ensures n == BankAt(node, n.path[2], n.path[3])
    {
      BankByPath(node, n);
    }
  }

  method CloseGroup(node: Dram, g: nat)
    requires Ddr4Tree(node) && node.level == RANK && g < |node.children|
    modifies node.nodes`state, node.nodes`row_state
    ensures forall n | n in node.nodes ::
              Snap(n) == if n.level == BANK && n.path[2] == g then Snapshot(Closed, map[]) else old(Snap(n))
  {
    BanksByPath(node);
    var b := 0;
    while b < |node.children[g].children|
      invariant b <= |node.children[g].children|
      invariant forall n | n in node.nodes ::
                  Snap(n) == if n.level == BANK && n.path[2] == g && n.path[3] < b then Snapshot(Closed, map[])
                      else old(Snap(n))
    {
      CloseBank(node, g, b);
      b := b + 1;
    }
  }

  method CloseBank(node: Dram, g: nat, b: nat)
    requires Ddr4Tree(node) && node.level == RANK && g < |node.children| && b < |node.children[g].children|
    modifies node.nodes`state, node.nodes`row_state
    ensures forall n | n in node.nodes ::
              Snap(n) == if n.level == BANK && n.path[2] == g && n.path[3] == b then Snapshot(Closed, map[])
                  else old(Snap(n))
  {
    var bank := BankAt(node, g, b);
    BanksByPath(node);
    bank.state, bank.row_state := Closed, map[];
  }

  method CloseBanks(node: Dram)
    requires Ddr4Tree(node) && node.level == RANK
    modifies node.nodes`state, node.nodes`row_state
    ensures forall n | n in node.nodes :: Snap(n) == if n.level == BANK then Snapshot(Closed, map[]) else old(Snap(n))
  {
    BanksByPath(node);
    var g := 0;
    while g < |node.children|
      invariant g <= |node.children|
      invariant forall n | n in node.nodes ::
                  Snap(n) == if n.level == BANK && n.path[2] < g then Snapshot(Closed, map[]) else old(Snap(n))
    {
      CloseGroup(node, g);
      g := g + 1;
    }
  }

  // The state transition of one level.
  method Lambda(node: Dram, cmd: nat, addr: seq<int>)
    requires Ddr4Tree(node) && |addr| == LEVELS && node.path <= addr && cmd < NONE && node.level <= SCOPE[cmd]
    modifies node.nodes`state, node.nodes`row_state
    ensures forall n | n in node.nodes && (n == node || (node.level == RANK && cmd == PREA)) ::
              Snap(n) == After(cmd, addr, n.path, old(Snap(n)), old(PowerDownState(node, addr)))
    ensures !(node.level == RANK && cmd == PREA) ==> forall n: Dram | n in node.nodes - {node} ::
        unchanged(n`state, n`row_state)
  {
    if node.level == BANK && cmd == ACT {
      node.state, node.row_state := Opened, node.row_state[addr[ROW] := Opened];
    } else if node.level == BANK && (cmd == PRE || cmd == RDA || cmd == WRA) {
      node.state, node.row_state := Closed, map[];
    } else if node.level == RANK && cmd == PREA {
      CloseBanks(node);
      forall n | n in node.nodes ensures |n.path| > RANK && n.path[0] == addr[0] && n.path[RANK] == addr[RANK] {
        node.Extends(n);
        assert node.path[0] == addr[0] && node.path[RANK] == addr[RANK];
      }
    } else if node.level == RANK && cmd == PDE {
      AnyOpenIsOpenBank(node, addr);
      node.state := if AnyOpen(node) then ActPowerDown else PrePowerDown;
    } else if node.level == RANK && (cmd == PDX || cmd == SRX) {
      node.state := PowerUp;
    } else if node.level == RANK && cmd == SRE {
      node.state := SelfRefresh;
    }
  }

  // A command changes nothing off the addressed path, and nothing below its scope but the banks PREA closes.
  lemma OffPath(cmd: nat, addr: seq<int>, p: Path, s: Snapshot, powerDown: State)
    requires |addr| == LEVELS && cmd < NONE
    requires (!(p <= addr) && (cmd == PREA && |p| == BANK + 1 ==> p[RANK] != addr[RANK])) ||
             (|p| > SCOPE[cmd] + 1 && cmd != PREA)
    ensures After(cmd, addr, p, s, powerDown) == s
  {}

  lemma Unreached(node: Dram, cmd: nat, addr: seq<int>)
    requires Ddr4Tree(node) && |addr| == LEVELS && cmd < NONE && !(node.level == RANK && cmd == PREA)
    requires node.level == SCOPE[cmd] || |node.children| == 0
    ensures forall n, s, o | n in node.nodes - {node} :: After(cmd, addr, n.path, s, o) == s
  {
    forall n, s, o | n in node.nodes - {node} ensures After(cmd, addr, n.path, s, o) == s {
      assert n.UnderChildOf(node.children, node.path) && |n.path| > |node.path|;
      OffPath(cmd, addr, n.path, s, o);
    }
  }

  lemma OffChild(node: Dram, cmd: nat, addr: seq<int>)
    requires Ddr4Tree(node) && node.Aims(addr) && Reaches(cmd, addr) && node.level < SCOPE[cmd] && |node.children| != 0
    requires addr[node.level + 1] >= 0
    ensures forall n, s, o | n in node.nodes - {node} && n !in node.children[addr[node.level + 1]].nodes ::
              After(cmd, addr, n.path, s, o) == s
  {
    node.AimsBelow(addr);
    forall n, s, o | n in node.nodes - {node} && n !in node.children[addr[node.level + 1]].nodes
      ensures After(cmd, addr, n.path, s, o) == s
    {
      assert n.UnderChildOf(node.children, node.path);
      OffPath(cmd, addr, n.path, s, o);
    }
  }

  method UpdateState(node: Dram, cmd: nat, addr: seq<int>)
    requires Ddr4Tree(node) && node.Aims(addr) && Reaches(cmd, addr) && node.level <= SCOPE[cmd]
    modifies node.nodes`state, node.nodes`row_state
    ensures forall n | n in node.nodes ::
              Snap(n) == After(cmd, addr, n.path, old(Snap(n)), old(PowerDownState(node, addr)))
    decreases node.height
  {
    if cmd == PDE && node.level == CHANNEL { OpenBankBelow(node, addr); }
    Lambda(node, cmd, addr);
    if node.level == SCOPE[cmd] || |node.children| == 0 {
      if !(node.level == RANK && cmd == PREA) { Unreached(node, cmd, addr); }
      return;
    }
    var childId := addr[node.level + 1];
    node.AimsBelow(addr);
    Child(node, childId);
    var child := node.children[childId];
    OffChild(node, cmd, addr);
    assert !(node.level == RANK && cmd == PREA);
    assert forall n: Dram | n in child.nodes :: n in node.nodes - {node} && unchanged(n`state, n`row_state);
    assert cmd == PDE ==> PowerDownState(child, addr) == old(PowerDownState(node, addr));
    label mid:
    UpdateState(child, cmd, addr);
    forall n | n in node.nodes
      ensures Snap(n) == After(cmd, addr, n.path, old(Snap(n)), old(PowerDownState(node, addr)))
    {
      if n in child.nodes {
        assert old@mid(Snap(n)) == old(Snap(n));
      } else if n != node {
        assert Snap(n) == old@mid(Snap(n)) == old(Snap(n));
      }
    }
  }
}
