/** Readiness filter and the in-place exchange sort that decides which tickets are dispatched. */
module TicketSort {
  import opened Strings

  datatype Readiness = ReadyForExecution | ReadyWithReview | NotReady(reason: string)

  datatype ClassifiedTicket = ClassifiedTicket(key: string, readiness: Readiness, priority: string)

  function PriorityRank(p: string): (r: nat)
    ensures r <= 3
  {
    var low := Lower(p);
    if low == "highest" then 0 else if low == "high" then 1 else if low == "medium" then 2 else 3
  }

  function ReadinessRank(r: Readiness): nat {
    if r == ReadyForExecution then 0 else 1
  }

  /** Readiness first, then priority. */
  function Rank(t: ClassifiedTicket): nat {
    4 * ReadinessRank(t.readiness) + PriorityRank(t.priority)
  }

  predicate IsReady(t: ClassifiedTicket) {
    t.readiness == ReadyForExecution || t.readiness == ReadyWithReview
  }

  function Ready(tickets: seq<ClassifiedTicket>): seq<ClassifiedTicket> {
    if tickets == [] then []
    else Ready(tickets[..|tickets| - 1]) + if IsReady(tickets[|tickets| - 1]) then [tickets[|tickets| - 1]] else []
  }

  method FilterReady(tickets: seq<ClassifiedTicket>) returns (ready: seq<ClassifiedTicket>)
    ensures ready == Ready(tickets)
  {
    ready := [];
    for i := 0 to |tickets|
      invariant ready == Ready(tickets[..i])
    {
      assert tickets[..i + 1][..i] == tickets[..i];
      if IsReady(tickets[i]) {
        ready := ready + [tickets[i]];
      }
    }
    assert tickets[..|tickets|] == tickets;
  }

  /** Nothing later outranks anything earlier. */
  ghost predicate Ordered(s: seq<ClassifiedTicket>) {
    forall i, j | 0 <= i < j < |s| :: Rank(s[i]) <= Rank(s[j])
  }

  /** The first `i` tickets rank no higher than anything behind them. */
  ghost predicate Settled(s: seq<ClassifiedTicket>, i: int) {
    forall p, q | 0 <= p < i && p < q < |s| :: Rank(s[p]) <= Rank(s[q])
  }

  /** The comparison the loop makes, readiness before priority. */
  predicate OutOfOrder(t: ClassifiedTicket, u: ClassifiedTicket)
    ensures OutOfOrder(t, u) <==> Rank(t) > Rank(u)
  {
    var rt, ru := ReadinessRank(t.readiness), ReadinessRank(u.readiness);
    if rt != ru then rt > ru else PriorityRank(t.priority) > PriorityRank(u.priority)
  }

  method Swap(tickets: array<ClassifiedTicket>, i: nat, j: nat)
    requires i < j < tickets.Length
    modifies tickets
    ensures tickets[..] == old(tickets[..])[i := old(tickets[j])][j := old(tickets[i])]
    ensures multiset(tickets[..]) == multiset(old(tickets[..]))
  {
    tickets[i], tickets[j] := tickets[j], tickets[i];
  }

  lemma SwapSettled(s: seq<ClassifiedTicket>, i: nat, j: nat)
    requires i < j < |s| && Settled(s, i)
    ensures Settled(s[i := s[j]][j := s[i]], i)
  {
  }

  method SortTicketsByPriority(tickets: array<ClassifiedTicket>)
    modifies tickets
    ensures Ordered(tickets[..])
    ensures multiset(tickets[..]) == multiset(old(tickets[..]))
  {
    for i := 0 to tickets.Length
      invariant multiset(tickets[..]) == multiset(old(tickets[..]))
      invariant Settled(tickets[..], i)
    {
      for j := i + 1 to tickets.Length
        invariant multiset(tickets[..]) == multiset(old(tickets[..]))
        invariant Settled(tickets[..], i)
        invariant forall q | i < q < j :: Rank(tickets[..][i]) <= Rank(tickets[..][q])
      {
        if OutOfOrder(tickets[i], tickets[j]) {
          SwapSettled(tickets[..], i, j);
          Swap(tickets, i, j);
        }
      }
    }
  }

  // ----- The order by name -----

  /** Only these two kinds of readiness are dispatched. */
  lemma TwoKindsPass(tickets: seq<ClassifiedTicket>, t: ClassifiedTicket)
    requires t.readiness.NotReady?
    ensures t !in Ready(tickets)
    decreases |tickets|
  {
    if tickets != [] {
      TwoKindsPass(tickets[..|tickets| - 1], t);
    }
  }

  /** Readiness goes first, and among tickets of one readiness highest, high, medium and the rest. */
  lemma RankByName(t: ClassifiedTicket, u: ClassifiedTicket)
    ensures t.readiness == ReadyForExecution && u.readiness == ReadyWithReview ==> Rank(t) < Rank(u)
    ensures t.readiness == u.readiness ==>
              var p, q := Lower(t.priority), Lower(u.priority);
              && (p == q ==> Rank(t) == Rank(u))
              && (p == "highest" && q != "highest" ==> Rank(t) < Rank(u))
              && (p == "high" && q != "highest" && q != "high" ==> Rank(t) < Rank(u))
              && (p == "medium" && q != "highest" && q != "high" && q != "medium" ==> Rank(t) < Rank(u))
              && (p !in {"highest", "high", "medium"} && q !in {"highest", "high", "medium"} ==> Rank(t) == Rank(u))
  {
  }
}
