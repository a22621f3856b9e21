/** The session's cached ticket collection and the read-only questions the
    client asks of it: counting, lookup by ticket number, per-type statistics,
    and how a fetch result replaces it. */
module Cache {
  import opened Records

  /** s.filter(p).length */
  function CountWhere<T>(s: seq<T>, p: T -> bool): (n: nat)
    ensures n <= |s|
    ensures n == 0 <==> forall i :: 0 <= i < |s| ==> !p(s[i])
    ensures n == |s| <==> forall i :: 0 <= i < |s| ==> p(s[i])
  {
    if s == [] then 0 else (if p(s[0]) then 1 else 0) + CountWhere(s[1..], p)
  }

  /** Counting over a concatenation adds up the counts of the parts. */
  lemma {:induction false} CountWhereConcat<T>(a: seq<T>, b: seq<T>, p: T -> bool)
    ensures CountWhere(a + b, p) == CountWhere(a, p) + CountWhere(b, p)
  {
    if a != [] {
      assert (a + b)[1..] == a[1..] + b;
      CountWhereConcat(a[1..], b, p);
    } else {
      assert a + b == b;
    }
  }

  /** getTypeCount(type): how many cached tickets have this repair type. */
  function TypeCount(tickets: seq<Ticket>, repairType: string): (n: nat)
    ensures n <= |tickets|
    ensures n == 0 <==> forall i :: 0 <= i < |tickets| ==> tickets[i].repairType != repairType
  {
    CountWhere(tickets, (t: Ticket) => t.repairType == repairType)
  }

  /** The repair types of the cached tickets, in cache order. */
  function RepairTypesOf(tickets: seq<Ticket>): (r: seq<string>)
    ensures |r| == |tickets| && forall i :: 0 <= i < |tickets| ==> r[i] == tickets[i].repairType
  {
    seq(|tickets|, i requires 0 <= i < |tickets| => tickets[i].repairType)
  }

  /** The type count is the multiplicity of the type among the cached tickets' types. */
  lemma {:induction false} TypeCountIsMultiplicity(tickets: seq<Ticket>, repairType: string)
    ensures TypeCount(tickets, repairType) == multiset(RepairTypesOf(tickets))[repairType]
  {
    if tickets != [] {
      assert RepairTypesOf(tickets) == [tickets[0].repairType] + RepairTypesOf(tickets[1..]);
      TypeCountIsMultiplicity(tickets[1..], repairType);
    }
  }

  /** The four figures of the statistics panel never add up to more than the cache holds. */
  lemma {:induction false} TypeCountsBounded(tickets: seq<Ticket>)
    ensures TypeCount(tickets, Desktop) + TypeCount(tickets, Laptop)
          + TypeCount(tickets, Printer) + TypeCount(tickets, Internet) <= |tickets|
  {
    if tickets != [] {
      TypeCountsBounded(tickets[1..]);
    }
  }

  /** tickets.find(t => t.ticket_number === number): the first cached ticket with
      that number, or none when no cached ticket has it. */
  function FindByNumber(tickets: seq<Ticket>, number: string): (r: Option<Ticket>)
    ensures r.None? <==> forall i :: 0 <= i < |tickets| ==> tickets[i].ticketNumber != number
    ensures r.Some? ==> exists i :: 0 <= i < |tickets| && tickets[i] == r.value
                                    && r.value.ticketNumber == number
                                    && forall j :: 0 <= j < i ==> tickets[j].ticketNumber != number
  {
    if tickets == [] then None
    else if tickets[0].ticketNumber == number then Some(tickets[0])
    else
      var r := FindByNumber(tickets[1..], number);
      assert r.Some? ==> exists i :: 0 < i < |tickets| && tickets[i] == r.value
                                    && forall j :: 0 <= j < i ==> tickets[j].ticketNumber != number by {
        if r.Some? {
          var k :| 0 <= k < |tickets[1..]| && tickets[1..][k] == r.value
                   && forall j :: 0 <= j < k ==> tickets[1..][j].ticketNumber != number;
          assert tickets[k + 1] == r.value;
          assert forall j :: 0 <= j < k + 1 ==> tickets[j].ticketNumber != number by {
            forall j | 0 <= j < k + 1 ensures tickets[j].ticketNumber != number {
              if j > 0 {
                assert tickets[j] == tickets[1..][j - 1];
              }
            }
          }
        }
      }
      r
  }

  /** The ticket "Mark as Repaired" sends to the store: the same record with
      status Repaired and every other field unchanged. */
  function MarkRepaired(t: Ticket): (r: Ticket)
    ensures r.status == Repaired
    ensures r.(status := t.status) == t
  {
    t.(status := Repaired)
  }

  /** What a select on the tickets table returns: an error, or rows (null read as none). */
  datatype FetchResult = FetchFailed(message: string) | Fetched(data: Option<seq<Ticket>>)

  /** What an insert, update or delete on the tickets table returns. */
  datatype WriteResult = WriteOk | WriteFailed(message: string)

  /** The cache after fetchTickets: on error the old cache, otherwise the fetched rows. */
  function Refreshed(cache: seq<Ticket>, result: FetchResult): seq<Ticket>
  {
    match result
    case FetchFailed(_) => cache
    case Fetched(None) => []
    case Fetched(Some(rows)) => rows
  }

  /** Applying the same fetch result a second time changes nothing. */
  lemma RefreshIdempotent(cache: seq<Ticket>, result: FetchResult)
    ensures Refreshed(Refreshed(cache, result), result) == Refreshed(cache, result)
  {
  }

  /** A successful fetch replaces the cache: what was cached before does not matter. */
  lemma RefreshReplaces(cache1: seq<Ticket>, cache2: seq<Ticket>, result: FetchResult)
    requires result.Fetched?
    ensures Refreshed(cache1, result) == Refreshed(cache2, result)
  {
  }
}
