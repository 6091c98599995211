/** The DDR4 tables: levels, commands, scopes and timing rules. */
module Ddr4Table {
  import opened TimingHistory
  import opened DramTree

  const CHANNEL := 0
  const RANK := 1
  const BANKGROUP := 2
  const BANK := 3
  const ROW := 4
  const COLUMN := 5
  const LEVELS := 6

  const ACT: nat := 0
  const PRE: nat := 1
  const PREA: nat := 2
  const RD: nat := 3
  const WR: nat := 4
  const RDA: nat := 5
  const WRA: nat := 6
  const REF: nat := 7
  const PDE: nat := 8
  const PDX: nat := 9
  const SRE: nat := 10
  const SRX: nat := 11
  const NONE: nat := 12

  const SCOPE: seq<nat> := [ROW, BANK, RANK, COLUMN, COLUMN, COLUMN, COLUMN, RANK, RANK, RANK, RANK, RANK]

  const START: seq<State> := [State.MAX, PowerUp, State.MAX, Closed, Closed, State.MAX]

  // The timing parameters of a speed grade, in cycles.
  datatype Speed = Speed(
    nBL: int, nCCDS: int, nCCDL: int, nRTRS: int, nCL: int, nRCD: int, nRP: int, nCWL: int, nRAS: int, nRC: int,
    nRTP: int, nWTRS: int, nWTRL: int, nWR: int, nRRDS: int, nRRDL: int, nFAW: int, nRFC: int,
    nPD: int, nXP: int, nCKESR: int, nXS: int)

  predicate RowOk(r: seq<Entry>) {
    forall k | 0 <= k < |r| :: r[k].cmd < NONE && r[k].dist >= 1 && (r[k].sibling ==> r[k].dist == 1)
  }

  function ChannelRow(c: nat, s: Speed): (r: seq<Entry>)
    ensures RowOk(r)
  {
    if c == RD then [
      Entry(RD, 1, s.nBL, false), Entry(RDA, 1, s.nBL, false)]
    else if c == WR then [
      Entry(WR, 1, s.nBL, false), Entry(WRA, 1, s.nBL, false)]
    else if c == RDA then [
      Entry(RD, 1, s.nBL, false), Entry(RDA, 1, s.nBL, false)]
    else if c == WRA then [
      Entry(WR, 1, s.nBL, false), Entry(WRA, 1, s.nBL, false)]
    else []
  }

  function RankRow(c: nat, s: Speed): (r: seq<Entry>)
    ensures RowOk(r)
  {
    if c == ACT then [
      Entry(ACT, 1, s.nRRDS, false), Entry(ACT, 4, s.nFAW, false), Entry(PREA, 1, s.nRAS, false),
      Entry(PDE, 1, 1, false)]
    else if c == PRE then [
      Entry(REF, 1, s.nRP, false), Entry(SRE, 1, s.nRP, false)]
    else if c == PREA then [
      Entry(ACT, 1, s.nRP, false), Entry(REF, 1, s.nRP, false), Entry(SRE, 1, s.nRP, false)]
    else if c == RD then [
      Entry(RD, 1, s.nCCDS, false), Entry(RDA, 1, s.nCCDS, false),
      Entry(WR, 1, s.nCL + s.nCCDS + 2 - s.nCWL, false), Entry(WRA, 1, s.nCL + s.nCCDS + 2 - s.nCWL, false),
      Entry(RD, 1, s.nBL + s.nRTRS, true), Entry(RDA, 1, s.nBL + s.nRTRS, true),
      Entry(WR, 1, s.nBL + s.nRTRS, true), Entry(WRA, 1, s.nBL + s.nRTRS, true),
      Entry(WR, 1, s.nCL + s.nBL + s.nRTRS - s.nCWL, true),
      Entry(WRA, 1, s.nCL + s.nBL + s.nRTRS - s.nCWL, true), Entry(PREA, 1, s.nRTP, false),
      Entry(PDE, 1, s.nCL + s.nBL + 1, false)]
    else if c == WR then [
      Entry(WR, 1, s.nCCDS, false), Entry(WRA, 1, s.nCCDS, false), Entry(RD, 1, s.nCWL + s.nBL + s.nWTRS, false),
      Entry(RDA, 1, s.nCWL + s.nBL + s.nWTRS, false), Entry(RD, 1, s.nCWL + s.nBL + s.nRTRS - s.nCL, true),
      Entry(RDA, 1, s.nCWL + s.nBL + s.nRTRS - s.nCL, true), Entry(PREA, 1, s.nCWL + s.nBL + s.nWR, false),
      Entry(PDE, 1, s.nCWL + s.nBL + s.nWR, false)]
    else if c == RDA then [
      Entry(RD, 1, s.nCCDS, false), Entry(RDA, 1, s.nCCDS, false),
      Entry(WR, 1, s.nCL + s.nCCDS + 2 - s.nCWL, false), Entry(WRA, 1, s.nCL + s.nCCDS + 2 - s.nCWL, false),
      Entry(RD, 1, s.nBL + s.nRTRS, true), Entry(RDA, 1, s.nBL + s.nRTRS, true),
      Entry(WR, 1, s.nBL + s.nRTRS, true), Entry(WRA, 1, s.nBL + s.nRTRS, true),
      Entry(WR, 1, s.nCL + s.nBL + s.nRTRS - s.nCWL, true),
      Entry(WRA, 1, s.nCL + s.nBL + s.nRTRS - s.nCWL, true), Entry(PDE, 1, s.nCL + s.nBL + 1, false)]
    else if c == WRA then [
      Entry(WR, 1, s.nCCDS, false), Entry(WRA, 1, s.nCCDS, false), Entry(RD, 1, s.nCWL + s.nBL + s.nWTRS, false),
      Entry(RDA, 1, s.nCWL + s.nBL + s.nWTRS, false), Entry(RD, 1, s.nCWL + s.nBL + s.nRTRS - s.nCL, true),
      Entry(RDA, 1, s.nCWL + s.nBL + s.nRTRS - s.nCL, true), Entry(PDE, 1, s.nCWL + s.nBL + s.nWR + 1, false)]
    else if c == REF then [
      Entry(ACT, 1, s.nRFC, false), Entry(REF, 1, s.nRFC, false), Entry(PDE, 1, 1, false)]
    else if c == PDE then [
      Entry(PDX, 1, s.nPD, false)]
    else if c == PDX then [
      Entry(RD, 1, s.nXP, false), Entry(RDA, 1, s.nXP, false), Entry(WR, 1, s.nXP, false),
      Entry(WRA, 1, s.nXP, false), Entry(ACT, 1, s.nXP, false), Entry(PRE, 1, s.nXP, false),
      Entry(PREA, 1, s.nXP, false), Entry(REF, 1, s.nXP, false), Entry(PDE, 1, s.nXP, false),
      Entry(SRE, 1, s.nXP, false)]
    else if c == SRE then [
      Entry(SRX, 1, s.nCKESR, false)]
    else if c == SRX then [
      Entry(ACT, 1, s.nXS, false), Entry(REF, 1, s.nXS, false), Entry(PDE, 1, s.nXS, false),
      Entry(SRE, 1, s.nXS, false)]
    else []
  }

  function BankGroupRow(c: nat, s: Speed): (r: seq<Entry>)
    ensures RowOk(r)
  {
    if c == ACT then [
      Entry(ACT, 1, s.nRRDL, false)]
    else if c == RD then [
      Entry(RD, 1, s.nCCDL, false), Entry(RDA, 1, s.nCCDL, false)]
    else if c == WR then [
      Entry(WR, 1, s.nCCDL, false), Entry(WRA, 1, s.nCCDL, false), Entry(RD, 1, s.nCWL + s.nBL + s.nWTRL, false),
      Entry(RDA, 1, s.nCWL + s.nBL + s.nWTRL, false)]
    else if c == RDA then [
      Entry(RD, 1, s.nCCDL, false), Entry(RDA, 1, s.nCCDL, false)]
    else if c == WRA then [
      Entry(WR, 1, s.nCCDL, false), Entry(WRA, 1, s.nCCDL, false), Entry(RD, 1, s.nCWL + s.nBL + s.nWTRL, false),
      Entry(RDA, 1, s.nCWL + s.nBL + s.nWTRL, false)]
    else []
  }

  function BankRow(c: nat, s: Speed): (r: seq<Entry>)
    ensures RowOk(r)
  {
    if c == ACT then [
      Entry(RD, 1, s.nRCD, false), Entry(RDA, 1, s.nRCD, false), Entry(WR, 1, s.nRCD, false),
      Entry(WRA, 1, s.nRCD, false), Entry(ACT, 1, s.nRC, false), Entry(PRE, 1, s.nRAS, false)]
    else if c == PRE then [
      Entry(ACT, 1, s.nRP, false)]
    else if c == RD then [
      Entry(PRE, 1, s.nRTP, false)]
    else if c == WR then [
      Entry(PRE, 1, s.nCWL + s.nBL + s.nWR, false)]
    else if c == RDA then [
      Entry(ACT, 1, s.nRTP + s.nRP, false)]
    else if c == WRA then [
      Entry(ACT, 1, s.nCWL + s.nBL + s.nWR + s.nRP, false)]
    else []
  }
  function Row(level: nat, c: nat, s: Speed): (r: seq<Entry>)
    ensures RowOk(r)
  {
    if level == CHANNEL then ChannelRow(c, s)
    else if level == RANK then RankRow(c, s)
    else if level == BANKGROUP then BankGroupRow(c, s)
    else if level == BANK then BankRow(c, s)
    else []
  }

  function Table(s: Speed): (spec: Spec)
    ensures spec.Valid() && spec.numCmds == NONE && |spec.timing| == LEVELS && spec.scope == SCOPE
    ensures forall l, c | 0 <= l < LEVELS && 0 <= c < NONE :: spec.timing[l][c] == Row(l, c, s)
  {
    var rows := seq(LEVELS, l requires 0 <= l < LEVELS => seq(NONE, c requires 0 <= c < NONE => Row(l, c, s)));
    var spec := Spec(NONE, rows, SCOPE);
    assert spec.Valid() by {
      forall l, c, k | 0 <= l < LEVELS && 0 <= c < NONE && 0 <= k < |Row(l, c, s)|
        ensures spec.ValidEntry(Row(l, c, s)[k])
      {}
    }
    spec
  }
}
