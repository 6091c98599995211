/** The DRAM tree of one channel: channel, ranks, bank groups, banks (rows are not nodes).

    Each node keeps, for every command, the earliest clock at which it may issue (`next`) and a short
    window of its recent issues (`prev`). Issuing a command updates the addressed nodes and their
    siblings in place; checking a command walks one path. */
module DramTree {
  import opened TimingHistory
  import opened ServingCounters

  datatype State = Opened | Closed | PowerUp | ActPowerDown | PrePowerDown | SelfRefresh | MAX

  // What a standard fixes about its tree: start states and fan-out per level, and the level of rows.
  datatype Org = Org(start: seq<State>, count: seq<nat>, rowLevel: nat) {
    predicate Fits(spec: Spec) { |start| == |count| == |spec.timing| && rowLevel < |spec.timing| }

    function FanOut(level: nat): nat
      requires level < rowLevel <= |count|
    {
      if level + 1 == rowLevel then 0 else count[level + 1]
    }
  }

  class Dram {
    const spec: Spec
    const level: nat
    const id: int
    const children: seq<Dram>
    var cur_clk: int
    var state: State
    var row_state: map<int, State>
    var next: seq<int>
    var prev: seq<seq<int>>
    // The requests in service through this node, and their sums.
    var serving: Counter

    // The ids from the root to this node and the nodes of this subtree: fixed at construction.
    ghost const path: Path
    ghost const nodes: set<Dram>
    ghost const height: nat

    ghost predicate Node() {
      && |path| == level + 1 < |spec.timing| && path[level] == id && this in nodes
    }

    // This node lies in the subtree of the child its path names.
    ghost predicate UnderChildOf(kids: seq<Dram>, p: Path) {
      p < path && 0 <= path[|p|] < |kids| && this in kids[path[|p|]].nodes
    }

    // How a node relates to its subtree.
    ghost predicate Branch() {
      && Node()
      && (forall n | n in nodes :: n.Node() && n.spec == spec)
      && (forall n | n in nodes && n != this :: n.nodes <= nodes - {this})
      && (forall n {:trigger n.UnderChildOf(children, path)} | n in nodes && n != this ::
          n.UnderChildOf(children, path))
      && (forall i | 0 <= i < |children| ::
            children[i] in nodes - {this} && children[i].path == path + [i] && children[i].height < height)
      && (forall i, j | 0 <= i < j < |children| :: children[i].nodes !! children[j].nodes)
    }

    // The shape of the subtree: fixed at construction, so it reads nothing mutable.
    ghost predicate Tree() {
      spec.Valid() && this in nodes && forall n | n in nodes :: n.Branch()
    }

    // This node's own timing registers hold what history `h` implies for them.
    ghost predicate Tracks(h: seq<Event>)
      requires Node() && spec.Valid()
      reads `next, `prev
    {
      && |next| == |prev| == spec.numCmds
      && (forall c | 0 <= c < spec.numCmds :: prev[c] == Window(Issues(path, c, h), MaxDist(spec.timing[level][c])))
      && (forall c | 0 <= c < spec.numCmds :: next[c] == Earliest(spec, path, c, h))
    }

    // Every node of the subtree does.
    ghost predicate Synced(h: seq<Event>)
      requires Tree()
      reads nodes`next, nodes`prev
    {
      forall n | n in nodes :: n.Tracks(h)
    }

    // This node starts in the standard's start state and has the standard's fan-out.
    ghost predicate Initial(org: Org)
      reads `state, `row_state, `cur_clk, `serving
    {
      && serving == IDLE && level < org.rowLevel <= |org.count| && |org.start| == |org.count|
      && |children| == org.FanOut(level)
      && state == org.start[level] && row_state == map[] && cur_clk == 0
    }

    constructor (spec: Spec, org: Org, level: nat, id: int, ghost parents: seq<int>)
      requires spec.Valid() && org.Fits(spec) && level < org.rowLevel && |parents| == level
      ensures Tree() && Synced([]) && fresh(nodes)
      ensures this.spec == spec && this.level == level && this.id == id && path == parents + [id]
      ensures height == org.rowLevel - level
      ensures forall n | n in nodes :: n.Initial(org)
      decreases org.rowLevel - level, 1
    {
      var history := InitialHistory(spec, level);
      ghost var p: Path := parents + [id];
      var kids, below := BuildChildren(spec, org, level, p);
      this.spec, this.level, this.id := spec, level, id;
      state, row_state, cur_clk, serving := org.start[level], map[], 0, IDLE;
      next, prev, children := seq(spec.numCmds, _ => -1), history, kids;
      path, height, nodes := p, org.rowLevel - level, {this} + below;
      new;
      assert Tracks([]) && nodes - {this} == below;
      Assembled(org);
    }

    // A node over new children is a tree in its initial condition.
    lemma Assembled(org: Org)
      requires Node() && spec.Valid() && org.Fits(spec) && level < org.rowLevel && Tracks([]) && Initial(org)
      requires height == org.rowLevel - level && Brood(children, nodes - {this}, spec, org, level, path)
      ensures Tree() && Synced([]) && forall n | n in nodes :: n.Initial(org)
    {
      forall n | n in nodes - {this}
        ensures n.Branch() && n.Node() && n.spec == spec && n.nodes <= nodes - {this} && n.Tracks([]) && n.Initial(org)
      {
        assert n.UnderChildOf(children, path);
        var child := children[n.path[|path|]];
        assert child.NewChild(spec, org, level, path, n.path[|path|]);
        assert n == child || n.nodes <= child.nodes;
      }
      forall i | 0 <= i < |children|
        ensures children[i] in nodes - {this} && children[i].path == path + [i] && children[i].height < height
      {
        assert children[i].NewChild(spec, org, level, path, i) && children[i] in children[i].nodes;
      }
      assert Branch();
    }

    static method InitialHistory(spec: Spec, level: nat) returns (history: seq<seq<int>>)
      requires spec.Valid() && level < |spec.timing|
      ensures |history| == spec.numCmds
      ensures forall c | 0 <= c < spec.numCmds :: history[c] == Window([], MaxDist(spec.timing[level][c]))
    {
      history := [];
      var cmd := 0;
      while cmd < spec.numCmds
        invariant |history| == cmd <= spec.numCmds
        invariant forall c | 0 <= c < cmd :: history[c] == Window([], MaxDist(spec.timing[level][c]))
      {
        history := history + [seq(MaxDist(spec.timing[level][cmd]), _ => -1)];
        cmd := cmd + 1;
      }
    }

    // A new child in its initial condition.
    ghost predicate NewChild(spec: Spec, org: Org, level: nat, p: Path, i: nat)
      reads nodes
    {
      && Tree() && Synced([]) && this.spec == spec && path == p + [i] && height < org.rowLevel - level
      && (forall n | n in nodes :: n.Initial(org))
    }

    // The children built so far, with all their nodes.
    static ghost predicate Brood(kids: seq<Dram>, below: set<Dram>, spec: Spec, org: Org, level: nat, p: Path)
      reads below
    {
      && (forall i | 0 <= i < |kids| :: kids[i].nodes <= below && kids[i].NewChild(spec, org, level, p, i))
      && (forall i, j | 0 <= i < j < |kids| :: kids[i].nodes !! kids[j].nodes)
      && (forall n | n in below :: n.UnderChildOf(kids, p))
    }

    // Nodes stay below the child that their path names when one more child is added.
    lemma StillUnder(kids: seq<Dram>, below: set<Dram>, p: Path)
      requires forall n | n in below :: n.UnderChildOf(kids, p)
      ensures forall n | n in below :: n.UnderChildOf(kids + [this], p)
    {
      var all := kids + [this];
      forall n | n in below ensures n.UnderChildOf(all, p) {
        assert n.UnderChildOf(kids, p) && all[n.path[|p|]] == kids[n.path[|p|]];
      }
    }

    lemma UnderLast(kids: seq<Dram>, p: Path)
      requires Tree() && path == p + [|kids|]
      ensures forall n | n in nodes :: n.UnderChildOf(kids + [this], p)
    {
      var all := kids + [this];
      forall n | n in nodes ensures n.UnderChildOf(all, p) {
        assert n == this || n.UnderChildOf(children, path);
        assert p < path <= n.path && n.path[|p|] == path[|p|] && all[|kids|] == this;
      }
    }

    lemma BroodGrows(kids: seq<Dram>, below: set<Dram>, spec: Spec, org: Org, lev: nat, p: Path)
      requires Brood(kids, below, spec, org, lev, p) && NewChild(spec, org, lev, p, |kids|) && nodes !! below
      ensures Brood(kids + [this], below + nodes, spec, org, lev, p)
    {
      var all := kids + [this];
      StillUnder(kids, below, p);
      UnderLast(kids, p);
      hide NewChild, UnderChildOf;
      forall i | 0 <= i < |all|
        ensures all[i].nodes <= below + nodes && all[i].NewChild(spec, org, lev, p, i)
        ensures i < |kids| ==> all[i].nodes !! nodes
      {
        assert i < |kids| ==> all[i] == kids[i];
      }
      assert forall i, j | 0 <= i < j < |all| :: all[i] == kids[i] && (j < |kids| ==> all[j] == kids[j]);
    }

    static method BuildChildren(spec: Spec, org: Org, level: nat, ghost p: Path)
      returns (kids: seq<Dram>, ghost below: set<Dram>)
      requires spec.Valid() && org.Fits(spec) && level < org.rowLevel && |p| == level + 1
      ensures |kids| == org.FanOut(level) && fresh(below)
      ensures Brood(kids, below, spec, org, level, p)
      decreases org.rowLevel - level, 0
    {
      kids, below := [], {};
      while |kids| < org.FanOut(level)
        invariant |kids| <= org.FanOut(level) && fresh(below)
        invariant Brood(kids, below, spec, org, level, p)
      {
        var child := new Dram(spec, org, level + 1, |kids|, p);
        child.BroodGrows(kids, below, spec, org, level, p);
        kids, below := kids + [child], below + child.nodes;
      }
    }

    // The rows of the table for a command at this node's level.
    function Row(cmd: nat): seq<Entry>
      requires Node() && spec.Valid() && cmd < spec.numCmds
    {
      spec.timing[level][cmd]
    }

    // Applies the sibling rows of a command issued at `clk`.
    method RaiseBySiblings(row: seq<Entry>, clk: nat)
      requires forall k | 0 <= k < |row| :: row[k].cmd < |next|
      modifies `next
      ensures |next| == old(|next|) && forall c | 0 <= c < |next| :: next[c] == RaiseSibling(old(next)[c], row, c, clk)
    {
      var i := 0;
      while i < |row|
        invariant i <= |row| && |next| == old(|next|)
        invariant forall c | 0 <= c < |next| :: next[c] == RaiseSibling(old(next)[c], row[..i], c, clk)
      {
        var t := row[i];
        assert row[..i + 1][..i] == row[..i];
        if t.sibling {
          var future := clk + t.val;
          next := next[t.cmd := Max(next[t.cmd], future)];
        }
        i := i + 1;
      }
      assert row[..i] == row;
    }

    // Applies the rows of a command to the addressed node, given its recent issues.
    method RaiseByOwn(row: seq<Entry>, hist: seq<int>)
      requires Covers(row, |hist|) && forall k | 0 <= k < |row| :: row[k].cmd < |next|
      modifies `next
      ensures |next| == old(|next|) && forall c | 0 <= c < |next| :: next[c] == RaiseOwn(old(next)[c], row, c, hist)
    {
      var i := 0;
      while i < |row|
        invariant i <= |row| && |next| == old(|next|)
        invariant forall c | 0 <= c < |next| :: next[c] == RaiseOwn(old(next)[c], row[..i], c, hist)
      {
        var t := row[i];
        assert row[..i + 1][..i] == row[..i];
        if !t.sibling {
          var past := hist[t.dist - 1];
          if past >= 0 {
            var future := past + t.val;
            next := next[t.cmd := Max(next[t.cmd], future)];
          }
        }
        i := i + 1;
      }
      assert row[..i] == row;
    }

    // First half of the update, at a node that is merely a sibling of the addressed one.
    method RaiseAsSibling(cmd: nat, addr: seq<int>, clk: nat, ghost h: seq<Event>)
      requires Node() && spec.Valid() && Tracks(h) && cmd < spec.numCmds && IsSibling(path, addr)
      modifies `next
      ensures Tracks(h + [Event(cmd, addr, clk)])
    {
      forall k | 0 <= k < |Row(cmd)| ensures Row(cmd)[k].cmd < |next| {
        assert spec.ValidEntry(Row(cmd)[k]);
      }
      RaiseBySiblings(Row(cmd), clk);
      OneMore(h, Event(cmd, addr, clk));
    }

    // First half of the update, at an addressed node: the history first, then the earliest clocks.
    method RaiseAsTarget(cmd: nat, addr: seq<int>, clk: nat, ghost h: seq<Event>)
      requires Node() && spec.Valid() && Tracks(h) && cmd < spec.numCmds && path <= addr
      modifies `next, `prev
      ensures Tracks(h + [Event(cmd, addr, clk)])
    {
      TargetEvent(spec, path, h, Event(cmd, addr, clk));
      WindowPush(Issues(path, cmd, h), clk, MaxDist(Row(cmd)));
      if |prev[cmd]| != 0 {
        prev := prev[cmd := [clk] + prev[cmd][..|prev[cmd]| - 1]];
      }
      forall k | 0 <= k < |Row(cmd)| ensures Row(cmd)[k].cmd < |next| {
        assert spec.ValidEntry(Row(cmd)[k]);
      }
      RaiseByOwn(Row(cmd), prev[cmd]);
    }

    // What one more event does to the histories of a node.
    lemma OneMore(h: seq<Event>, e: Event)
      ensures forall c :: Issues(path, c, h + [e]) == Issues(path, c, h) + if e.cmd == c && IsTarget(path, e.addr)
          then [e.clk] else []
      ensures (h + [e])[..|h|] == h
    {
      assert (h + [e])[..|h|] == h;
    }

    // A node that is neither addressed nor a sibling of an addressed node keeps its registers.
    lemma Untouched(h: seq<Event>, e: Event)
      requires Node() && spec.Valid() && Tracks(h) && !IsTarget(path, e.addr) && !IsSibling(path, e.addr)
      ensures Tracks(h + [e])
    {
      OneMore(h, e);
    }

    // Below a node that is not addressed, every register stays as it is.
    lemma UntouchedBelow(h: seq<Event>, e: Event)
      requires Tree() && path[..level] <= e.addr && |e.addr| == |spec.timing| && id != e.addr[level]
      requires forall n | n in nodes - {this} :: n.Tracks(h)
      ensures forall n | n in nodes - {this} :: n.Tracks(h + [e])
    {
      forall n | n in nodes - {this} ensures n.Tracks(h + [e]) {
        assert n.UnderChildOf(children, path) && n.path[level] == id;
        n.Untouched(h, e);
      }
    }

    // A subtree is in step when its root is and the subtrees below are.
    lemma SyncedFromBelow(h: seq<Event>)
      requires Tree() && Tracks(h) && forall i | 0 <= i < |children| :: children[i].Tree() && children[i].Synced(h)
      ensures Synced(h)
    {
      forall n | n in nodes - {this} ensures n.Tracks(h) {
        assert n.UnderChildOf(children, path);
      }
    }

    // The subtree of a child is a tree, apart from this node.
    lemma Apart(i: nat)
      requires Tree() && i < |children|
      ensures children[i].Tree() && children[i].nodes <= nodes - {this} && children[i].height < height
      ensures children[i].path == path + [i] && children[i].level == level + 1 && children[i].spec == spec
          && children[i].Node()
    {
      assert children[i].Branch();
    }

    // Every path in the subtree extends this node's own, and only this node's is as short.
    lemma Extends(n: Dram)
      requires Tree() && n in nodes
      ensures path <= n.path && (|n.path| == |path| ==> n == this)
    {
      assert n == this || n.UnderChildOf(children, path);
    }

    method UpdateTiming(cmd: nat, addr: seq<int>, clk: nat, ghost h: seq<Event>)
      requires Tree() && Synced(h) && cmd < spec.numCmds && |addr| == |spec.timing| && path[..level] <= addr
      modifies nodes`next, nodes`prev
      ensures Synced(h + [Event(cmd, addr, clk)])
      decreases height, 1
    {
      if id != addr[level] {
        assert IsSibling(path, addr);
        RaiseAsSibling(cmd, addr, clk, h);
        UntouchedBelow(h, Event(cmd, addr, clk));
        return;
      }
      RaiseAsTarget(cmd, addr, clk, h);
      forall i | 0 <= i < |children| ensures children[i].Tree() && children[i].Synced(h) {
        Apart(i);
      }
      UpdateChildren(cmd, addr, clk, h);
      SyncedFromBelow(h + [Event(cmd, addr, clk)]);
    }

    method UpdateChildren(cmd: nat, addr: seq<int>, clk: nat, ghost h: seq<Event>)
      requires Tree() && cmd < spec.numCmds && |addr| == |spec.timing| && path <= addr
      requires forall i | 0 <= i < |children| :: children[i].Tree() && children[i].Synced(h)
      modifies (nodes - {this})`next, (nodes - {this})`prev
      ensures forall i | 0 <= i < |children| :: children[i].Synced(h + [Event(cmd, addr, clk)])
      decreases height, 0
    {
      var i := 0;
      while i < |children|
        invariant i <= |children|
        invariant forall j | 0 <= j < i :: children[j].Synced(h + [Event(cmd, addr, clk)])
        invariant forall j | i <= j < |children| :: children[j].Synced(h)
      {
        Apart(i);
        assert forall j | 0 <= j < |children| && j != i :: children[j].nodes !! children[i].nodes;
        children[i].UpdateTiming(cmd, addr, clk, h);
        i := i + 1;
      }
    }

    // An address that names an existing child wherever it names one at all.
    ghost predicate Aims(addr: seq<int>)
      requires Tree()
    {
      && |addr| == |spec.timing| && path <= addr
      && forall n | n in nodes && n.path <= addr :: |n.children| == 0 || addr[n.level + 1] < |n.children|
    }

    lemma AimsBelow(addr: seq<int>)
      requires Tree() && Aims(addr) && |children| != 0 && addr[level + 1] >= 0
      ensures children[addr[level + 1]].Tree() && children[addr[level + 1]].Aims(addr)
      ensures forall n | n in nodes - {this} && n.path <= addr :: n in children[addr[level + 1]].nodes
    {
      Apart(addr[level + 1]);
      forall n | n in nodes - {this} && n.path <= addr ensures n in children[addr[level + 1]].nodes {
        assert n.UnderChildOf(children, path);
      }
    }

    // Is a command ready at this clock, on the path from here to the level of its scope?
    predicate Check(cmd: nat, addr: seq<int>, clk: nat)
      requires Tree() && Aims(addr) && cmd < spec.numCmds && Registers()
      reads nodes`next
      decreases height
    {
      if next[cmd] != -1 && clk < next[cmd] then false else
        var childId := addr[level + 1];
        if childId < 0 || level == spec.scope[cmd] || |children| == 0 then true
        else
          AimsBelow(addr);
          Apart(childId);
          children[childId].Check(cmd, addr, clk)
    }

    // Every node has one register per command.
    ghost predicate Registers()
      requires Tree()
      reads nodes`next
    {
      forall n | n in nodes :: |n.next| == n.spec.numCmds
    }

    // The naive checker: every rule of the table at every addressed node down to the command's scope.
    ghost predicate Allowed(cmd: nat, addr: seq<int>, clk: int, h: seq<Event>)
      requires Tree() && cmd < spec.numCmds
    {
      forall n | n in nodes && n.path <= addr && n.level <= spec.scope[cmd] :: NodeAllows(spec, n.path, cmd, h, clk)
    }

    /** Timing refinement: the walk down the tree accepts exactly the commands that the naive checker
        accepts on the full history of issued commands. */
    lemma {:induction false} CheckIsNaive(cmd: nat, addr: seq<int>, clk: nat, h: seq<Event>)
      requires Tree() && Aims(addr) && cmd < spec.numCmds && level <= spec.scope[cmd]
      requires Synced(h) && Chronological(h)
      ensures Check(cmd, addr, clk) <==> Allowed(cmd, addr, clk, h)
      decreases height
    {
      EarliestIsNaive(spec, path, cmd, h, clk);
      assert Tracks(h);
      assert forall n | n in nodes - {this} :: n.UnderChildOf(children, path);
      var childId := addr[level + 1];
      if childId < 0 || level == spec.scope[cmd] || |children| == 0 {
        forall n | n in nodes && n.path <= addr && n.level <= spec.scope[cmd] ensures n == this {}
      } else {
        AimsBelow(addr);
        Apart(childId);
        var child := children[childId];
        child.CheckIsNaive(cmd, addr, clk, h);
        assert Allowed(cmd, addr, clk, h) <==> NodeAllows(spec, path, cmd, h, clk) && child.Allowed(cmd, addr, clk, h);
      }
    }

    // The largest earliest clock on the path from here to the level of the command's scope.
    ghost function PathNext(cmd: nat, addr: seq<int>): int
      requires Tree() && Aims(addr) && cmd < spec.numCmds && Registers()
      reads nodes`next
      decreases height
    {
      var childId := addr[level + 1];
      if childId < 0 || level == spec.scope[cmd] || |children| == 0 then next[cmd]
      else
        AimsBelow(addr);
        Apart(childId);
        Max(next[cmd], children[childId].PathNext(cmd, addr))
    }

    /** From the last issue on, a command is ready exactly from the clock that `GetNext` reports. */
    lemma {:induction false} ReadyFromPathNext(cmd: nat, addr: seq<int>, clk: nat)
      requires Tree() && Aims(addr) && cmd < spec.numCmds && Registers()
      ensures Check(cmd, addr, clk) <==> PathNext(cmd, addr) <= clk
      ensures cur_clk <= clk ==> (Check(cmd, addr, clk) <==> Max(cur_clk, PathNext(cmd, addr)) <= clk)
      decreases height
    {
      var childId := addr[level + 1];
      if !(childId < 0 || level == spec.scope[cmd] || |children| == 0) {
        AimsBelow(addr);
        Apart(childId);
        children[childId].ReadyFromPathNext(cmd, addr, clk);
      }
    }

    method GetNext(cmd: nat, addr: seq<int>) returns (nextClk: int)
      requires Tree() && Aims(addr) && cmd < spec.numCmds && level <= spec.scope[cmd] && Registers()
      ensures nextClk == Max(cur_clk, PathNext(cmd, addr))
    {
      assert Node();
      hide Branch;
      nextClk := Max(cur_clk, next[cmd]);
      var node, l := this, level;
      while l < spec.scope[cmd] && |node.children| != 0 && addr[l + 1] >= 0
        invariant node.Tree() && node.Aims(addr) && node.spec == spec && node.Registers() && node.Node()
        invariant node.level == l <= spec.scope[cmd] && nextClk >= node.next[cmd]
        invariant Max(nextClk, node.PathNext(cmd, addr)) == Max(cur_clk, PathNext(cmd, addr))
        decreases node.height
      {
        node.AimsBelow(addr);
        node.Apart(addr[l + 1]);
        node := node.children[addr[l + 1]];
        nextClk := Max(nextClk, node.next[cmd]);
        l := l + 1;
      }
    }

    // --- Requests in service. ---

    // A change may be counted here: no count becomes negative.
    ghost predicate Counts(delta: int)
      reads `serving
    {
      (delta == 1 || delta == -1) && serving.cur + delta >= 0 && serving.cur >= 0
          && (serving.cur > 0 ==> serving.since != -1)
    }

    // Counts a request in or out on its path, down to the bank or the node just below it.
    method UpdateServingRequests(addr: seq<int>, delta: int, clk: int, bank: nat)
      requires Tree() && Aims(addr) && level <= bank + 1
      requires forall n | n in nodes && n.path <= addr && n.level <= bank + 1 :: n.Counts(delta)
      modifies nodes`serving
      ensures forall n | n in nodes ::
                n.serving == if n.path <= addr && n.level <= bank + 1 then Step(old(n.serving), delta, clk)
                    else old(n.serving)
      decreases height
    {
      assert id == addr[level] && Counts(delta);
      StepCounts(serving, delta, clk);
      hide Step, Branch;
      serving := Step(serving, delta, clk);
      assert serving.cur >= 0 && (serving.cur == 0 ==> serving.since != -1 && delta == -1);
      var childId := addr[level + 1];
      if childId < 0 || |children| == 0 || level > bank {
        ServedHereOnly(addr, bank);
        return;
      }
      AimsBelow(addr);
      Apart(childId);
      children[childId].UpdateServingRequests(addr, delta, clk, bank);
    }

    lemma ServedHereOnly(addr: seq<int>, bank: nat)
      requires Tree() && Aims(addr) && (addr[level + 1] < 0 || |children| == 0 || level > bank)
      ensures forall n | n in nodes - {this} :: !(n.path <= addr && n.level <= bank + 1)
    {
      forall n | n in nodes - {this} ensures !(n.path <= addr && n.level <= bank + 1) {
        assert n.UnderChildOf(children, path);
      }
    }

    lemma StepCounts(c: Counter, delta: int, clk: int)
      requires (delta == 1 || delta == -1) && c.cur + delta >= 0 && c.cur >= 0 && (c.cur > 0 ==> c.since != -1)
      ensures Step(c, delta, clk).cur == c.cur + delta
      ensures Step(c, delta, clk).cur == 0 ==> Step(c, delta, clk).since != -1 && delta == -1
    {}

    // Every node down to the one below the bank has the counter that the changes so far imply.
    ghost predicate Serves(h: seq<Change>, bank: nat)
      requires Tree()
      reads nodes`serving
    {
      forall n | n in nodes && n.level <= bank + 1 :: n.serving == CounterOf(n.path, h)
    }
  }

  // The command state of a node.
  datatype Snapshot = Snapshot(state: State, rows: map<int, State>)

  function Snap(n: Dram): Snapshot
    reads n`state, n`row_state
  {
    Snapshot(n.state, n.row_state)
  }
}
