/** The club record: identity, league standing, finances and the dashboard counts it stores. */
module Clubs {
  import opened Primitives

  /** Money amounts are C# `long`s: balance and transfer budget, weekly wage budget and wage spend. */
  datatype ClubFinances = ClubFinances(balance: Int64, transferBudget: Int64, wageBudget: Int64, currentWages: Int64)

  /** Stored counts for display; nothing recomputes them when the collections change. */
  datatype ClubCounts = ClubCounts(footballers: int, staff: int, unreadMessages: int)

  datatype Club = Club(
    id: int,
    name: string,
    stadium: string,
    league: string,
    leaguePosition: int,
    finances: ClubFinances,
    counts: ClubCounts)

  /** The club's stored counts equal the given live sizes. */
  predicate CountsAgree(club: Club, footballers: nat, staff: nat, unread: nat)
  {
    club.counts == ClubCounts(footballers, staff, unread)
  }
}
