/** The spacings that the DDR4 table and scopes buy on every run, level by level. */
module Ddr4Spacing {
  import opened TimingHistory
  import opened TimingWindows
  import opened Ddr4Table

  // The rule at position `r` of a row, read off the table and kept on the run.
  lemma Kept(s: Speed, p: Path, c: nat, q: nat, v: int, sibling: bool, r: nat, h: seq<Event>)
    requires |p| <= BANK + 1 && c < NONE && q < NONE && |p| - 1 <= SCOPE[q]
    requires r < |Row(|p| - 1, c, s)| && Row(|p| - 1, c, s)[r] == Entry(q, 1, v, sibling)
    requires LegalAt(Table(s), p, h) && Chronological(h)
    ensures if sibling then ApartFromSiblings(p, c, q, v, h) else Apart(p, c, q, v, h)
  {
    RuleKeepsApart(Table(s), p, c, r, h);
  }

  /** In one bank: a row is given time to open before it is used, to be used before it is closed, and to close. */
  lemma BankSpacing(s: Speed, bank: Path, h: seq<Event>)
    requires |bank| == BANK + 1 && LegalAt(Table(s), bank, h) && Chronological(h)
    ensures Apart(bank, ACT, RD, s.nRCD, h) && Apart(bank, ACT, WR, s.nRCD, h)
    ensures Apart(bank, ACT, PRE, s.nRAS, h) && Apart(bank, PRE, ACT, s.nRP, h) && Apart(bank, ACT, ACT, s.nRC, h)
    ensures Apart(bank, RD, PRE, s.nRTP, h) && Apart(bank, WR, PRE, s.nCWL + s.nBL + s.nWR, h)
  {
    hide Apart, LegalAt, Chronological, Table;
    Kept(s, bank, ACT, RD, s.nRCD, false, 0, h);
    Kept(s, bank, ACT, WR, s.nRCD, false, 2, h);
    Kept(s, bank, ACT, ACT, s.nRC, false, 4, h);
    Kept(s, bank, ACT, PRE, s.nRAS, false, 5, h);
    Kept(s, bank, PRE, ACT, s.nRP, false, 0, h);
    Kept(s, bank, RD, PRE, s.nRTP, false, 0, h);
    Kept(s, bank, WR, PRE, s.nCWL + s.nBL + s.nWR, false, 0, h);
  }

  /** On the data bus of the channel, bursts of a kind do not overlap. */
  lemma ChannelSpacing(s: Speed, channel: Path, h: seq<Event>)
    requires |channel| == CHANNEL + 1 && LegalAt(Table(s), channel, h) && Chronological(h)
    ensures Apart(channel, RD, RD, s.nBL, h) && Apart(channel, WR, WR, s.nBL, h)
  {
    hide Apart, LegalAt, Chronological, Table;
    Kept(s, channel, RD, RD, s.nBL, false, 0, h);
    Kept(s, channel, WR, WR, s.nBL, false, 0, h);
  }

  /** In one bank group the long spacings hold. */
  lemma GroupSpacing(s: Speed, group: Path, h: seq<Event>)
    requires |group| == BANKGROUP + 1 && LegalAt(Table(s), group, h) && Chronological(h)
    ensures Apart(group, ACT, ACT, s.nRRDL, h)
    ensures Apart(group, RD, RD, s.nCCDL, h) && Apart(group, WR, WR, s.nCCDL, h)
    ensures Apart(group, WR, RD, s.nCWL + s.nBL + s.nWTRL, h)
  {
    hide Apart, LegalAt, Chronological, Table;
    Kept(s, group, ACT, ACT, s.nRRDL, false, 0, h);
    Kept(s, group, RD, RD, s.nCCDL, false, 0, h);
    Kept(s, group, WR, WR, s.nCCDL, false, 0, h);
    Kept(s, group, WR, RD, s.nCWL + s.nBL + s.nWTRL, false, 2, h);
  }

  /** In one rank: the short spacings, the turn of the bus between reads and writes, precharge and refresh, and the
      times in and after the power states; and the turn of the bus between ranks. */
  lemma RankSpacing(s: Speed, rank: Path, h: seq<Event>)
    requires |rank| == RANK + 1 && LegalAt(Table(s), rank, h) && Chronological(h)
    ensures Apart(rank, ACT, ACT, s.nRRDS, h) && Apart(rank, RD, RD, s.nCCDS, h) && Apart(rank, WR, WR, s.nCCDS, h)
    ensures Apart(rank, RD, WR, s.nCL + s.nCCDS + 2 - s.nCWL, h) && Apart(rank, WR, RD, s.nCWL + s.nBL + s.nWTRS, h)
    ensures ApartFromSiblings(rank, RD, RD, s.nBL + s.nRTRS, h)
    ensures ApartFromSiblings(rank, WR, RD, s.nCWL + s.nBL + s.nRTRS - s.nCL, h)
    ensures Apart(rank, ACT, PREA, s.nRAS, h) && Apart(rank, PREA, ACT, s.nRP, h)
    ensures Apart(rank, PRE, REF, s.nRP, h) && Apart(rank, PREA, REF, s.nRP, h)
    ensures Apart(rank, REF, ACT, s.nRFC, h) && Apart(rank, REF, REF, s.nRFC, h)
    ensures Apart(rank, PDE, PDX, s.nPD, h) && Apart(rank, PDX, RD, s.nXP, h) && Apart(rank, PDX, ACT, s.nXP, h)
    ensures Apart(rank, SRE, SRX, s.nCKESR, h) && Apart(rank, SRX, ACT, s.nXS, h)
  {
    hide Apart, ApartFromSiblings, LegalAt, Chronological, Table;
    Kept(s, rank, ACT, ACT, s.nRRDS, false, 0, h);
    Kept(s, rank, RD, RD, s.nCCDS, false, 0, h);
    Kept(s, rank, WR, WR, s.nCCDS, false, 0, h);
    Kept(s, rank, RD, WR, s.nCL + s.nCCDS + 2 - s.nCWL, false, 2, h);
    Kept(s, rank, WR, RD, s.nCWL + s.nBL + s.nWTRS, false, 2, h);
    Kept(s, rank, RD, RD, s.nBL + s.nRTRS, true, 4, h);
    Kept(s, rank, WR, RD, s.nCWL + s.nBL + s.nRTRS - s.nCL, true, 4, h);
    Kept(s, rank, ACT, PREA, s.nRAS, false, 2, h);
    Kept(s, rank, PREA, ACT, s.nRP, false, 0, h);
    Kept(s, rank, PRE, REF, s.nRP, false, 0, h);
    Kept(s, rank, PREA, REF, s.nRP, false, 1, h);
    Kept(s, rank, REF, ACT, s.nRFC, false, 0, h);
    Kept(s, rank, REF, REF, s.nRFC, false, 1, h);
    Kept(s, rank, PDE, PDX, s.nPD, false, 0, h);
    Kept(s, rank, PDX, RD, s.nXP, false, 0, h);
    Kept(s, rank, PDX, ACT, s.nXP, false, 4, h);
    Kept(s, rank, SRE, SRX, s.nCKESR, false, 0, h);
    Kept(s, rank, SRX, ACT, s.nXS, false, 0, h);
  }
}
