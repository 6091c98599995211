/** The command state machine of DSARP: a bank over subarrays, each with its own open rows, and refresh of
    single banks. */
module DsarpState {
  import opened TimingHistory
  import opened DramTree

  const CHANNEL := 0
  const RANK := 1
  const BANK := 2
  const SUBARRAY := 3
  const ROW := 4
  const COLUMN := 5
  const LEVELS := 6

  const ACT: nat := 0
  const PRE: nat := 1
  const PREA: nat := 2
  const RD: nat := 3
  const WR: nat := 4
  const RDA: nat := 5
  const WRA: nat := 6
  const REF: nat := 7
  const REFPB: nat := 8
  const PDE: nat := 9
  const PDX: nat := 10
  const SRE: nat := 11
  const SRX: nat := 12
  const NONE: nat := 13

  const SCOPE: seq<nat> := [ROW, BANK, RANK, COLUMN, COLUMN, COLUMN, COLUMN, RANK, BANK, RANK, RANK, RANK, RANK]

  const START: seq<State> := [State.MAX, PowerUp, Closed, Closed, State.MAX, State.MAX]

  const SHUT := Snapshot(Closed, map[])

  // A DSARP channel tree down to the subarrays; it reads nothing mutable.
  ghost predicate DsarpTree(node: Dram) {
    && node.Tree() && node.level <= SUBARRAY
    && node.spec.numCmds == NONE && |node.spec.timing| == LEVELS && node.spec.scope == SCOPE
    && (forall n | n in node.nodes :: n.level <= SUBARRAY && (n.level == SUBARRAY <==> |n.children| == 0))
  }

  lemma Child(node: Dram, i: nat)
    requires DsarpTree(node) && i < |node.children|
    ensures DsarpTree(node.children[i]) && node.children[i].nodes <= node.nodes - {node}
    ensures node.children[i].height < node.height
    ensures node.children[i].level == node.level + 1 && node.children[i].path == node.path + [i]
  {
    assert node.children[i] in node.nodes;
  }

  // --- The states of a bank and of its subarrays together. ---

  predicate OpenAt(b: Snapshot, subs: seq<Snapshot>, i: int) {
    && 0 <= i < |subs| && i in b.rows && |b.rows| == 1 && subs[i].state == Opened && |subs[i].rows| == 1
    && forall j | 0 <= j < |subs| && j != i :: subs[j] == SHUT
  }

  /** A bank is closed, and so are all its subarrays, with no row; or it is opened, names one subarray, and just
      that subarray is opened, with one row. */
  ghost predicate Nested(b: Snapshot, subs: seq<Snapshot>) {
    || (b == SHUT && forall j | 0 <= j < |subs| :: subs[j] == SHUT)
    || (b.state == Opened && exists i :: OpenAt(b, subs, i))
  }

  predicate PowerState(s: State) { s == PowerUp || s == ActPowerDown || s == PrePowerDown || s == SelfRefresh }

  function Subs(bank: Dram): (subs: seq<Snapshot>)
    reads set i | 0 <= i < |bank.children| :: bank.children[i]
    ensures |subs| == |bank.children| && forall i | 0 <= i < |subs| :: subs[i] == Snap(bank.children[i])
  {
    seq(|bank.children|, i requires 0 <= i < |bank.children| reads set k | 0 <= k < |bank.children| ::
        bank.children[k] =>
      Snap(bank.children[i]))
  }

  ghost predicate NodeOk(n: Dram)
    reads n, set i | 0 <= i < |n.children| :: n.children[i]
  {
    (n.level == BANK ==> Nested(Snap(n), Subs(n))) && (n.level == RANK ==> PowerState(n.state))
  }

  ghost predicate RowInvariant(node: Dram)
    requires DsarpTree(node)
    reads node.nodes
  {
    forall n | n in node.nodes ::
      assert forall i | 0 <= i < |n.children| :: n.children[i] in n.nodes && n.nodes <= node.nodes;
      NodeOk(n)
  }

  // --- Prerequisites. ---

  predicate AnyBankOpen(rank: Dram)
    reads set i | 0 <= i < |rank.children| :: rank.children[i]
  {
    exists b | 0 <= b < |rank.children| :: rank.children[b].state != Closed
  }

  // The command that must come before `cmd` at this node, or NONE.
  function Prereq(node: Dram, cmd: nat, id: int): nat
    requires DsarpTree(node) && RowInvariant(node)
    reads node.nodes
  {
    assert node in node.nodes && NodeOk(node);
    assert forall i | 0 <= i < |node.children| :: node.children[i] in node.nodes;
    if node.level == RANK && (cmd == RD || cmd == WR) then
      match node.state
      case PowerUp => NONE
      case ActPowerDown => PDX
      case PrePowerDown => PDX
      case SelfRefresh => SRX
    else if node.level == BANK && (cmd == RD || cmd == WR) then
      match node.state
      case Closed => ACT
      case Opened => if id in node.row_state then NONE else PRE
    else if node.level == SUBARRAY && (cmd == RD || cmd == WR) then
      if node.state == Closed then ACT else if id in node.row_state then cmd else PRE
    else if node.level == RANK && cmd == REF then
      if AnyBankOpen(node) then PREA else REF
    else if node.level == BANK && cmd == REFPB then
      if node.state == Closed then REFPB else PRE
    else if node.level == RANK && cmd == PDE then
      match node.state
      case PowerUp => PDE
      case ActPowerDown => PDE
      case PrePowerDown => PDE
      case SelfRefresh => SRX
    else if node.level == RANK && cmd == SRE then
      match node.state
      case PowerUp => SRE
      case ActPowerDown => PDX
      case PrePowerDown => PDX
      case SelfRefresh => SRE
    else NONE
  }

  lemma Below(node: Dram, i: nat)
    requires DsarpTree(node) && RowInvariant(node) && i < |node.children|
    ensures DsarpTree(node.children[i]) && RowInvariant(node.children[i])
  {
    Child(node, i);
  }

  // Walks down the address until some level demands another command first.
  function Decode(node: Dram, cmd: nat, addr: seq<int>): nat
    requires DsarpTree(node) && RowInvariant(node) && node.Aims(addr)
    reads node.nodes
    decreases node.height
  {
    var childId := addr[node.level + 1];
    var first := Prereq(node, cmd, childId);
    if first != NONE then first
    else if childId < 0 || |node.children| == 0 then cmd
    else
      node.AimsBelow(addr);
      Child(node, childId);
      Below(node, childId);
      Decode(node.children[childId], cmd, addr)
  }

  // --- State changes. ---

  // The address reaches down to the level at which the command stops.
  predicate Reaches(cmd: nat, addr: seq<int>)
    requires |addr| == LEVELS
  {
    cmd < NONE && forall l | 0 < l <= SCOPE[cmd] && l <= SUBARRAY :: addr[l] >= 0
  }

  /** What a command does to the state of one node, wherever the node is. */
  function After(cmd: nat, addr: seq<int>, p: Path, s: Snapshot, powerDown: State): Snapshot
    requires |addr| == LEVELS
  {
    if |p| == BANK + 1 && p <= addr && cmd == ACT then Snapshot(Opened, s.rows[addr[SUBARRAY] := Opened])
    else if |p| == SUBARRAY + 1 && p <= addr && cmd == ACT then Snapshot(Opened, s.rows[addr[ROW] := Opened])
    else if |p| == BANK + 1 && p <= addr && cmd == PRE then SHUT
    else if |p| == SUBARRAY + 1 && p[..BANK + 1] <= addr && cmd == PRE then SHUT
    else if BANK < |p| <= SUBARRAY + 1 && p <= addr && (cmd == RDA || cmd == WRA) then SHUT
    else if |p| == BANK + 1 && p <= addr && cmd == REFPB then s.(rows := map[])
    else if BANK < |p| <= SUBARRAY + 1 && p[..RANK + 1] <= addr && cmd == PREA then SHUT
    else if |p| == RANK + 1 && p <= addr && cmd == PREA then s.(rows := map[])
    else if |p| == RANK + 1 && p <= addr && cmd == PDE then s.(state := powerDown)
    else if |p| == RANK + 1 && p <= addr && (cmd == PDX || cmd == SRX) then s.(state := PowerUp)
    else if |p| == RANK + 1 && p <= addr && cmd == SRE then s.(state := SelfRefresh)
    else s
  }

  function AfterSubs(cmd: nat, addr: seq<int>, p: Path, subs: seq<Snapshot>, powerDown: State): (after: seq<Snapshot>)
    requires |addr| == LEVELS
    ensures |after| == |subs| && forall i | 0 <= i < |subs| :: after[i] == After(cmd, addr, p + [i], subs[i], powerDown)
  {
    seq(|subs|, i requires 0 <= i < |subs| => After(cmd, addr, p + [i], subs[i], powerDown))
  }

  /** No command but those with an automatic precharge breaks the nesting, if ACT goes to closed banks only. */
  lemma NestedAfter(cmd: nat, addr: seq<int>, p: Path, b: Snapshot, subs: seq<Snapshot>, powerDown: State)
    requires |p| == BANK + 1 && |addr| == LEVELS && Nested(b, subs) && cmd != RDA && cmd != WRA
    requires cmd == ACT && p <= addr ==> b.state == Closed && 0 <= addr[SUBARRAY] < |subs|
    requires cmd == REFPB && p <= addr ==> b.state == Closed
    ensures Nested(After(cmd, addr, p, b, powerDown), AfterSubs(cmd, addr, p, subs, powerDown))
  {
    var b', subs' := After(cmd, addr, p, b, powerDown), AfterSubs(cmd, addr, p, subs, powerDown);
    forall i | 0 <= i < |subs| ensures (p + [i])[..BANK + 1] == p && (p + [i])[..RANK + 1] == p[..RANK + 1]
      && (p + [i] <= addr <==> p <= addr && addr[SUBARRAY] == i) {
      ChildOnPath(p, i, addr);
    }
    if cmd == ACT && p <= addr {
      assert OpenAt(b', subs', addr[SUBARRAY]);
    } else if (cmd == PRE && p <= addr) || (cmd == PREA && p[..RANK + 1] <= addr) {
      assert b' == SHUT;
    } else {
      assert b' == b;
      assert subs' == subs;
    }
  }

  lemma ChildOnPath(p: Path, i: int, addr: seq<int>)
    requires |p| == BANK + 1 && |addr| == LEVELS
    ensures (p + [i])[..BANK + 1] == p && (p + [i])[..RANK + 1] == p[..RANK + 1]
    ensures p + [i] <= addr <==> p <= addr && addr[SUBARRAY] == i
  {
    if p <= addr && addr[SUBARRAY] == i { assert addr[..SUBARRAY + 1] == p + [i]; }
    if p + [i] <= addr { assert (p + [i])[SUBARRAY] == addr[SUBARRAY] && (p + [i])[..BANK + 1] == p; }
  }

  // --- The transitions on the tree. ---

  // A subarray or bank below a rank is the one its path names.
  lemma SubsByPath(bank: Dram)
    requires DsarpTree(bank) && bank.level == BANK
    ensures forall n | n in bank.nodes - {bank} ::
              n.level == SUBARRAY && n.path == bank.path + [n.path[SUBARRAY]] && n.path[..BANK + 1] == bank.path
              && 0 <= n.path[SUBARRAY] < |bank.children| && n == bank.children[n.path[SUBARRAY]]
  {
    forall n | n in bank.nodes - {bank}
      ensures n.level == SUBARRAY && n.path == bank.path + [n.path[SUBARRAY]] && n.path[..BANK + 1] == bank.path
      ensures 0 <= n.path[SUBARRAY] < |bank.children| && n == bank.children[n.path[SUBARRAY]]
    {
      assert n.UnderChildOf(bank.children, bank.path);
      Child(bank, n.path[SUBARRAY]);
      bank.children[n.path[SUBARRAY]].Extends(n);
    }
  }

  lemma BanksByPath(rank: Dram)
    requires DsarpTree(rank) && rank.level == RANK
    ensures forall n | n in rank.nodes - {rank} ::
              n.level >= BANK && |n.path| == n.level + 1 && n.path[..RANK + 1] == rank.path
                  && 0 <= n.path[BANK] < |rank.children|
              && n in rank.children[n.path[BANK]].nodes
              && (n.level == BANK ==> n == rank.children[n.path[BANK]])
  {
    forall n | n in rank.nodes - {rank}
      ensures n.level >= BANK && |n.path| == n.level + 1 && n.path[..RANK + 1] == rank.path
          && 0 <= n.path[BANK] < |rank.children|
      ensures n in rank.children[n.path[BANK]].nodes && (n.level == BANK ==> n == rank.children[n.path[BANK]])
    {
      assert n.UnderChildOf(rank.children, rank.path);
      Child(rank, n.path[BANK]);
      rank.children[n.path[BANK]].Extends(n);
    }
  }

  // Closes a bank and then its subarrays.
  method CloseBank(bank: Dram)
    requires DsarpTree(bank) && bank.level == BANK
    modifies bank.nodes`state, bank.nodes`row_state
    ensures forall n | n in bank.nodes :: Snap(n) == SHUT
  {
    SubsByPath(bank);
    bank.state, bank.row_state := Closed, map[];
    var s := 0;
    while s < |bank.children|
      invariant s <= |bank.children| && Snap(bank) == SHUT
      invariant forall n | n in bank.nodes - {bank} && n.path[SUBARRAY] < s :: Snap(n) == SHUT
    {
      Child(bank, s);
      bank.children[s].state, bank.children[s].row_state := Closed, map[];
      s := s + 1;
    }
  }

  method CloseBankAt(rank: Dram, b: nat)
    requires DsarpTree(rank) && rank.level == RANK && b < |rank.children|
    modifies (rank.nodes - {rank})`state, (rank.nodes - {rank})`row_state
    ensures forall n | n in rank.nodes - {rank} ::
              |n.path| > BANK && Snap(n) == if n.path[BANK] == b then SHUT else old(Snap(n))
  {
    BanksByPath(rank);
    Child(rank, b);
    forall n | n in rank.children[b].nodes ensures n.path[BANK] == b { rank.children[b].Extends(n); }
    CloseBank(rank.children[b]);
  }

  method CloseBanks(rank: Dram)
    requires DsarpTree(rank) && rank.level == RANK
    modifies (rank.nodes - {rank})`state, (rank.nodes - {rank})`row_state
    ensures forall n | n in rank.nodes - {rank} :: Snap(n) == SHUT
  {
    BanksByPath(rank);
    hide Dram.Branch, Dram.Tree;
    var b := 0;
    while b < |rank.children|
      invariant b <= |rank.children|
      invariant forall n | n in rank.nodes - {rank} && n.path[BANK] < b :: Snap(n) == SHUT
    {
      CloseBankAt(rank, b);
      b := b + 1;
    }
  }

  // Some subarray of the rank is not closed: what entering power down looks at.
  predicate AnySubOpen(rank: Dram)
    requires DsarpTree(rank) && rank.level == RANK
    reads rank.nodes
  {
    exists b, s | 0 <= b < |rank.children| && 0 <= s < |rank.children[b].children| ::
      SubAt(rank, b, s).state != Closed
  }

  function SubAt(rank: Dram, b: nat, s: nat): (sub: Dram)
    requires DsarpTree(rank) && rank.level == RANK && b < |rank.children| && s < |rank.children[b].children|
    ensures sub in rank.nodes && sub.level == SUBARRAY && sub == rank.children[b].children[s]
  {
    Child(rank, b);
    Child(rank.children[b], s);
    rank.children[b].children[s]
  }

  // An opened bank has an opened subarray, a closed one has none.
  lemma BankAndSubs(b: Snapshot, subs: seq<Snapshot>)
    requires Nested(b, subs)
    ensures b.state != Closed <==> exists s :: 0 <= s < |subs| && subs[s].state != Closed
  {
    if b.state != Closed {
      var s :| OpenAt(b, subs, s);
    }
  }

  lemma BankOk(rank: Dram, b: nat)
    requires DsarpTree(rank) && rank.level == RANK && RowInvariant(rank) && b < |rank.children|
    ensures Nested(Snap(rank.children[b]), Subs(rank.children[b]))
  {
    Child(rank, b);
    assert NodeOk(rank.children[b]);
  }

  /** The two definitions of entering power down agree: a rank has an open bank exactly when it has an open
      subarray. */
  lemma PowerDownAgrees(rank: Dram)
    requires DsarpTree(rank) && rank.level == RANK && RowInvariant(rank)
    ensures AnyBankOpen(rank) <==> AnySubOpen(rank)
  {
    hide Nested, RowInvariant;
    forall b | 0 <= b < |rank.children|
      ensures rank.children[b].state != Closed <==>
              exists s :: 0 <= s < |Subs(rank.children[b])| && Subs(rank.children[b])[s].state != Closed
    {
      BankOk(rank, b);
      BankAndSubs(Snap(rank.children[b]), Subs(rank.children[b]));
    }
    hide DsarpTree;
    if AnyBankOpen(rank) {
      var b :| 0 <= b < |rank.children| && rank.children[b].state != Closed;
      var s :| 0 <= s < |Subs(rank.children[b])| && Subs(rank.children[b])[s].state != Closed;
      assert SubAt(rank, b, s).state != Closed;
    }
    if AnySubOpen(rank) {
      var b, s :| 0 <= b < |rank.children| && 0 <= s < |rank.children[b].children| && SubAt(rank, b, s).state != Closed;
      assert Subs(rank.children[b])[s].state != Closed;
    }
  }

  // The power-down state that PDE enters, seen from any node on the address.
  ghost predicate OpenSub(node: Dram, addr: seq<int>)
    requires DsarpTree(node) && |addr| == LEVELS
    reads node.nodes`state
  {
    exists n | n in node.nodes :: n.level == SUBARRAY && n.path[..RANK + 1] <= addr && n.state != Closed
  }

  ghost function PowerDownState(node: Dram, addr: seq<int>): State
    requires DsarpTree(node) && |addr| == LEVELS
    reads node.nodes`state
  {
    if OpenSub(node, addr) then ActPowerDown else PrePowerDown
  }

  lemma SubByPath(rank: Dram, n: Dram)
    requires DsarpTree(rank) && rank.level == RANK && n in rank.nodes && n.level == SUBARRAY
    ensures |n.path| == SUBARRAY + 1 && 0 <= n.path[BANK] < |rank.children|
    ensures 0 <= n.path[SUBARRAY] < |rank.children[n.path[BANK]].children|
        && n == SubAt(rank, n.path[BANK], n.path[SUBARRAY])
  {
    BanksByPath(rank);
    Child(rank, n.path[BANK]);
    SubsByPath(rank.children[n.path[BANK]]);
  }

  lemma SubPath(rank: Dram, b: nat, s: nat)
    requires DsarpTree(rank) && rank.level == RANK && b < |rank.children| && s < |rank.children[b].children|
    ensures SubAt(rank, b, s).path == rank.path + [b, s] && |rank.path| == RANK + 1
    ensures SubAt(rank, b, s).path[..RANK + 1] == rank.path
  {
    Child(rank, b);
    Child(rank.children[b], s);
    assert rank.path + [b] + [s] == rank.path + [b, s];
  }

  lemma AnySubIsOpenSub(rank: Dram, addr: seq<int>)
    requires DsarpTree(rank) && rank.level == RANK && |addr| == LEVELS && rank.path <= addr
    ensures AnySubOpen(rank) <==> OpenSub(rank, addr)
  {
    if AnySubOpen(rank) {
      var b, s :| 0 <= b < |rank.children| && 0 <= s < |rank.children[b].children| && SubAt(rank, b, s).state != Closed;
      SubPath(rank, b, s);
      hide DsarpTree;
      assert OpenSub(rank, addr);
    }
    if OpenSub(rank, addr) {
      var n :| n in rank.nodes && n.level == SUBARRAY && n.path[..RANK + 1] <= addr && n.state != Closed;
      SubByPath(rank, n);
      hide DsarpTree;
      assert AnySubOpen(rank);
    }
  }

  // Seen from the channel, the subarrays of the addressed rank are those below the addressed child.
  lemma OpenSubBelow(node: Dram, addr: seq<int>)
    requires DsarpTree(node) && node.level == CHANNEL && node.Aims(addr) && addr[RANK] >= 0
    ensures DsarpTree(node.children[addr[RANK]])
    ensures OpenSub(node, addr) <==> OpenSub(node.children[addr[RANK]], addr)
  {
    Child(node, addr[RANK]);
    if OpenSub(node, addr) {
      var n :| n in node.nodes && n.level == SUBARRAY && n.path[..RANK + 1] <= addr && n.state != Closed;
      assert n.UnderChildOf(node.children, node.path);
      assert n.path[RANK] == addr[RANK];
    }
  }

  // Does the transition at this node reach below it?
  predicate Deep(level: nat, cmd: nat) { (level == RANK && cmd == PREA) || (level == BANK && cmd == PRE) }

  // The state transition of one level. The closed-bank demand is the assertion in the refresh of one bank.
  method Lambda(node: Dram, cmd: nat, addr: seq<int>, ghost powerDown: State)
    requires DsarpTree(node) && |addr| == LEVELS && node.path <= addr && cmd < NONE && node.level <= SCOPE[cmd]
    requires node.level == BANK && cmd == REFPB ==> node.state == Closed
    requires node.level == RANK && cmd == PDE ==> powerDown == PowerDownState(node, addr)
    modifies node.nodes`state, node.nodes`row_state
    ensures forall n | n in node.nodes && (n == node || Deep(node.level, cmd)) ::
              Snap(n) == After(cmd, addr, n.path, old(Snap(n)), powerDown)
    ensures !Deep(node.level, cmd) ==> forall n: Dram | n in node.nodes - {node} :: unchanged(n`state, n`row_state)
  {
    if node.level == BANK && cmd == ACT {
      node.state, node.row_state := Opened, node.row_state[addr[SUBARRAY] := Opened];
    } else if node.level == SUBARRAY && cmd == ACT {
      node.state, node.row_state := Opened, node.row_state[addr[ROW] := Opened];
    } else if node.level == BANK && cmd == PRE {
      CloseBank(node);
      SubsByPath(node);
    } else if node.level >= BANK && (cmd == RDA || cmd == WRA) {
      node.state, node.row_state := Closed, map[];
    } else if node.level == BANK && cmd == REFPB {
      assert node.state == Closed;
      node.row_state := map[];
    } else if node.level == RANK && cmd == PREA {
      node.row_state := map[];
      CloseBanks(node);
      BanksByPath(node);
    } else if node.level == RANK && cmd == PDE {
      AnySubIsOpenSub(node, addr);
      node.state := if AnySubOpen(node) then ActPowerDown else PrePowerDown;
    } else if node.level == RANK && (cmd == PDX || cmd == SRX) {
      node.state := PowerUp;
    } else if node.level == RANK && cmd == SRE {
      node.state := SelfRefresh;
    }
  }

  // A command changes nothing off the addressed path but what PREA and PRE close below it, and nothing below
  // its scope but that.
  lemma OffPath(cmd: nat, addr: seq<int>, p: Path, s: Snapshot, powerDown: State)
    requires |addr| == LEVELS && cmd < NONE
    requires (!(p <= addr) && (cmd == PREA && |p| > BANK ==> !(p[..RANK + 1] <= addr))
                           && (cmd == PRE && |p| > SUBARRAY ==> !(p[..BANK + 1] <= addr)))
          || (|p| > SCOPE[cmd] + 1 && cmd != PREA && cmd != PRE)
    ensures After(cmd, addr, p, s, powerDown) == s
  {}

  lemma Unreached(node: Dram, cmd: nat, addr: seq<int>)
    requires DsarpTree(node) && |addr| == LEVELS && cmd < NONE && !Deep(node.level, cmd)
    requires node.level == SCOPE[cmd] || |node.children| == 0
    ensures forall n, s, o | n in node.nodes - {node} :: After(cmd, addr, n.path, s, o) == s
  {
    forall n, s, o | n in node.nodes - {node} ensures After(cmd, addr, n.path, s, o) == s {
      assert n.UnderChildOf(node.children, node.path) && |n.path| > |node.path|;
      hide After, DsarpTree, Dram.Branch;
      OffPath(cmd, addr, n.path, s, o);
    }
  }

  lemma OffChild(node: Dram, cmd: nat, addr: seq<int>)
    requires DsarpTree(node) && node.Aims(addr) && Reaches(cmd, addr) && node.level < SCOPE[cmd] && |node.children| != 0
    requires addr[node.level + 1] >= 0
    ensures forall n, s, o | n in node.nodes - {node} && n !in node.children[addr[node.level + 1]].nodes ::
              After(cmd, addr, n.path, s, o) == s
  {
    node.AimsBelow(addr);
    forall n, s, o | n in node.nodes - {node} && n !in node.children[addr[node.level + 1]].nodes
      ensures After(cmd, addr, n.path, s, o) == s
    {
      assert n.UnderChildOf(node.children, node.path);
      assert n.path[node.level + 1] != addr[node.level + 1];
      OffPath(cmd, addr, n.path, s, o);
    }
  }

  // The node that a refresh of one bank asserts to be closed.
  ghost predicate RefreshesClosed(node: Dram, cmd: nat, addr: seq<int>)
    reads node.nodes`state
  {
    cmd == REFPB ==> forall n | n in node.nodes && n.level == BANK && n.path <= addr :: n.state == Closed
  }

  lemma NextId(cmd: nat, addr: seq<int>, level: nat)
    requires |addr| == LEVELS && Reaches(cmd, addr) && level <= SUBARRAY && level <= SCOPE[cmd]
    ensures cmd < NONE && (level < SCOPE[cmd] && level < SUBARRAY ==> addr[level + 1] >= 0)
  {}

  method UpdateState(node: Dram, cmd: nat, addr: seq<int>, ghost powerDown: State)
    requires DsarpTree(node) && node.Aims(addr) && Reaches(cmd, addr) && node.level <= SCOPE[cmd]
    requires RefreshesClosed(node, cmd, addr) && (cmd == PDE ==> powerDown == PowerDownState(node, addr))
    modifies node.nodes`state, node.nodes`row_state
    ensures forall n | n in node.nodes :: Snap(n) == After(cmd, addr, n.path, old(Snap(n)), powerDown)
    decreases node.height
  {
    NextId(cmd, addr, node.level);
    assert node in node.nodes && node.Node();
    hide After, Reaches, Dram.Branch, Dram.Tree;
    if cmd == PDE && node.level == CHANNEL { OpenSubBelow(node, addr); }
    Lambda(node, cmd, addr, powerDown);
    if node.level == SCOPE[cmd] || |node.children| == 0 {
      if !Deep(node.level, cmd) { Unreached(node, cmd, addr); }
      return;
    }
    var childId := addr[node.level + 1];
    node.AimsBelow(addr);
    Child(node, childId);
    var child := node.children[childId];
    OffChild(node, cmd, addr);
    assert !Deep(node.level, cmd);
    assert forall n: Dram | n in child.nodes :: n in node.nodes - {node} && unchanged(n`state, n`row_state);
    assert cmd == PDE ==> PowerDownState(child, addr) == powerDown;
    label mid:
    UpdateState(child, cmd, addr, powerDown);
    forall n | n in node.nodes ensures Snap(n) == After(cmd, addr, n.path, old(Snap(n)), powerDown) {
      if n in child.nodes {
        assert old@mid(Snap(n)) == old(Snap(n));
      } else if n != node {
        assert Snap(n) == old@mid(Snap(n)) == old(Snap(n));
      }
    }
  }
}
