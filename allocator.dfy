/** The ticket-number allocator of the submission handler: an eight-character
    date prefix (year, two-digit month, two-digit day) followed by the number of
    cached tickets already carrying that prefix plus one, zero-padded to five. */
module Allocator {
  import opened Text
  import opened Records
  import opened Cache

  /** The submitter's local date: getFullYear(), getMonth() + 1 and getDate(). */
  datatype CalendarDate = CalendarDate(year: nat, month: nat, day: nat)

  predicate ValidDate(d: CalendarDate) {
    1 <= d.month <= 12 && 1 <= d.day <= 31
  }

  /** The year, then the month and the day each padded to two digits. */
  function DatePrefix(d: CalendarDate): (p: string)
    requires ValidDate(d)
    ensures AllDigits(p)
    ensures |p| == |NatToString(d.year)| + 4
  {
    assert Pow10(2) == 100;
    ZeroPadWidth(d.month, 2);
    ZeroPadWidth(d.day, 2);
    AllDigitsConcat(NatToString(d.year), ZeroPad(d.month, 2));
    AllDigitsConcat(NatToString(d.year) + ZeroPad(d.month, 2), ZeroPad(d.day, 2));
    NatToString(d.year) + ZeroPad(d.month, 2) + ZeroPad(d.day, 2)
  }

  /** The prefix reads back as the date: its year digits, then exactly two
      characters for the month and two for the day. */
  lemma DatePrefixFields(d: CalendarDate)
    requires ValidDate(d)
    ensures var p, y := DatePrefix(d), |NatToString(d.year)|;
      && p[..y] == NatToString(d.year) && ParseDigits(p[..y]) == d.year
      && |p[y..y + 2]| == 2 && ParseDigits(p[y..y + 2]) == d.month
      && |p[y + 2..]| == 2 && ParseDigits(p[y + 2..]) == d.day
    ensures 1000 <= d.year <= 9999 ==> |DatePrefix(d)| == 8
  {
    hide ZeroPad;
    hide ParseDigits;
    hide NatToString;
    assert Pow10(2) == 100;
    ZeroPadWidth(d.month, 2);
    ZeroPadWidth(d.day, 2);
    var p, y := DatePrefix(d), |NatToString(d.year)|;
    assert p[..y] == NatToString(d.year);
    assert p[y..y + 2] == ZeroPad(d.month, 2);
    assert p[y + 2..] == ZeroPad(d.day, 2);
    ParseNatToString(d.year);
    ZeroPadRoundTrip(d.month, 2);
    ZeroPadRoundTrip(d.day, 2);
    if 1000 <= d.year <= 9999 {
      FourDigits(d.year);
    }
  }

  /** tickets.filter(t => t.ticket_number.startsWith(prefix)).length */
  function SameDayCount(tickets: seq<Ticket>, prefix: string): (k: nat)
    ensures k <= |tickets|
    ensures k == 0 <==> forall i :: 0 <= i < |tickets| ==> !StartsWith(tickets[i].ticketNumber, prefix)
  {
    CountWhere(tickets, (t: Ticket) => StartsWith(t.ticketNumber, prefix))
  }

  lemma SameDayCountConcat(a: seq<Ticket>, b: seq<Ticket>, prefix: string)
    ensures SameDayCount(a + b, prefix) == SameDayCount(a, prefix) + SameDayCount(b, prefix)
  {
    CountWhereConcat(a, b, (t: Ticket) => StartsWith(t.ticketNumber, prefix));
  }

  /** The number handed to a new submission: it starts with the date prefix and
      its remaining digits read as one more than the number of cached tickets
      carrying that prefix. */
  function NextTicketNumber(tickets: seq<Ticket>, d: CalendarDate): (r: string)
    requires ValidDate(d)
    ensures StartsWith(r, DatePrefix(d)) && AllDigits(r)
    ensures var k := SameDayCount(tickets, DatePrefix(d)) + 1;
      |r| == |DatePrefix(d)| + if |NatToString(k)| < 5 then 5 else |NatToString(k)|
    ensures ParseDigits(r[|DatePrefix(d)|..]) == SameDayCount(tickets, DatePrefix(d)) + 1
  {
    hide ParseDigits;
    hide NatToString;
    hide ZeroPad;
    hide DatePrefix;
    hide SameDayCount;
    var p := DatePrefix(d);
    var k := SameDayCount(tickets, p) + 1;
    var suffix := ZeroPad(k, 5);
    var r := p + suffix;
    ZeroPadRoundTrip(k, 5);
    assert r[..|p|] == p && r[|p|..] == suffix;
    AllDigitsConcat(p, suffix);
    r
  }

  /** With a four-digit year and fewer than 99999 tickets that day, the number is
      thirteen digits: the eight-digit date prefix (read back by DatePrefixFields)
      then the five-digit sequence. */
  lemma TicketNumberFormat(tickets: seq<Ticket>, d: CalendarDate)
    requires ValidDate(d) && 1000 <= d.year <= 9999
    requires SameDayCount(tickets, DatePrefix(d)) + 1 < 100000
    ensures var r := NextTicketNumber(tickets, d);
      && |r| == 13 && AllDigits(r) && r[..8] == DatePrefix(d)
      && ParseDigits(r[8..]) == SameDayCount(tickets, DatePrefix(d)) + 1
  {
    hide ParseDigits;
    hide NatToString;
    hide PadStart;
    hide DatePrefix;
    hide SameDayCount;
    var p := DatePrefix(d);
    var k := SameDayCount(tickets, p);
    var r := NextTicketNumber(tickets, d);
    DatePrefixFields(d);
    FourDigits(d.year);
    assert |p| == 8;
    assert Pow10(5) == 100000;
    ZeroPadWidth(k + 1, 5);
    assert r == p + ZeroPad(k + 1, 5);
    assert |r| == 13;
    assert r[..8] == p;
  }

  /** A one-digit sequence number padded to five places. */
  lemma ZeroPadOneDigit(n: nat)
    requires n < 10
    ensures ZeroPad(n, 5) == ['0', '0', '0', '0', DigitChar(n)]
  {
    assert NatToString(n) == [DigitChar(n)];
    assert Repeat('0', 4) == ['0', '0', '0', '0'];
  }

  /** The first ticket of a day gets sequence 00001. */
  lemma FirstOfDay(tickets: seq<Ticket>, d: CalendarDate)
    requires ValidDate(d)
    requires forall i :: 0 <= i < |tickets| ==> !StartsWith(tickets[i].ticketNumber, DatePrefix(d))
    ensures NextTicketNumber(tickets, d) == DatePrefix(d) + "00001"
  {
    ZeroPadOneDigit(1);
  }

  /** Once the new ticket is back in the cache, wherever the refreshed list puts
      it, the same-day count has grown by one. */
  lemma InsertedTicketCounts(a: seq<Ticket>, b: seq<Ticket>, t: Ticket, d: CalendarDate)
    requires ValidDate(d)
    requires t.ticketNumber == NextTicketNumber(a + b, d)
    ensures SameDayCount(a + [t] + b, DatePrefix(d)) == SameDayCount(a + b, DatePrefix(d)) + 1
  {
    var p := DatePrefix(d);
    SameDayCountConcat(a, b, p);
    SameDayCountConcat(a + [t], b, p);
    SameDayCountConcat(a, [t], p);
    assert SameDayCount([t], p) == 1 by {
      assert [t][1..] == [];
    }
  }

  /** Two submissions on a day with no earlier ticket, the second made after the
      first is in the cache, get sequences 00001 and then 00002. */
  lemma SequentialSubmissions(a: seq<Ticket>, b: seq<Ticket>, t: Ticket, d: CalendarDate)
    requires ValidDate(d)
    requires forall i :: 0 <= i < |a + b| ==> !StartsWith((a + b)[i].ticketNumber, DatePrefix(d))
    requires t.ticketNumber == NextTicketNumber(a + b, d)
    ensures t.ticketNumber == DatePrefix(d) + "00001"
    ensures NextTicketNumber(a + [t] + b, d) == DatePrefix(d) + "00002"
  {
    hide ParseDigits;
    hide NatToString;
    hide PadStart;
    hide ZeroPad;
    FirstOfDay(a + b, d);
    InsertedTicketCounts(a, b, t, d);
    ZeroPadOneDigit(2);
  }

  /** Every cached number of the day reads, after the prefix, as at most the
      day's count of cached tickets. */
  predicate SuffixesWithinCount(tickets: seq<Ticket>, prefix: string) {
    forall i :: 0 <= i < |tickets| && StartsWith(tickets[i].ticketNumber, prefix) ==>
      AllDigits(tickets[i].ticketNumber[|prefix|..])
      && ParseDigits(tickets[i].ticketNumber[|prefix|..]) <= SameDayCount(tickets, prefix)
  }

  /** Under that condition the allocated number is not already in the cache. */
  lemma NextIsFresh(tickets: seq<Ticket>, d: CalendarDate)
    requires ValidDate(d) && SuffixesWithinCount(tickets, DatePrefix(d))
    ensures forall i :: 0 <= i < |tickets| ==> tickets[i].ticketNumber != NextTicketNumber(tickets, d)
  {
  }

  /** Putting the newly numbered ticket into the cache keeps the condition, so
      the next allocation from that cache is again not already in the cache. */
  lemma AllocationKeepsSuffixesWithinCount(a: seq<Ticket>, b: seq<Ticket>, t: Ticket, d: CalendarDate)
    requires ValidDate(d) && SuffixesWithinCount(a + b, DatePrefix(d))
    requires t.ticketNumber == NextTicketNumber(a + b, d)
    ensures SuffixesWithinCount(a + [t] + b, DatePrefix(d))
  {
    var p := DatePrefix(d);
    var c := a + [t] + b;
    InsertedTicketCounts(a, b, t, d);
    forall i | 0 <= i < |c| && StartsWith(c[i].ticketNumber, p)
      ensures AllDigits(c[i].ticketNumber[|p|..])
      ensures ParseDigits(c[i].ticketNumber[|p|..]) <= SameDayCount(c, p)
    {
      if i < |a| {
        assert c[i] == (a + b)[i];
      } else if i > |a| {
        assert c[i] == (a + b)[i - 1];
      } else {
        assert c[i] == t;
      }
    }
  }

  /** Without that condition the count rule can repeat a number: after the day's
      ticket 00001 is deleted, the cache holds only 00002, and the next
      submission is given 00002 again. */
  lemma CountRuleRepeatsAfterDelete(t: Ticket, d: CalendarDate)
    requires ValidDate(d)
    requires t.ticketNumber == DatePrefix(d) + "00002"
    ensures NextTicketNumber([t], d) == t.ticketNumber
    ensures !SuffixesWithinCount([t], DatePrefix(d))
  {
    var p := DatePrefix(d);
    assert t.ticketNumber[..|p|] == p;
    assert [t][1..] == [];
    assert SameDayCount([t], p) == 1;
    ZeroPadOneDigit(2);
    var s := t.ticketNumber[|p|..];
    assert s == "00002";
    assert ParseDigits(s) == 2 by {
      ParseLeadingZeros(4, "2");
      assert s == Repeat('0', 4) + "2";
    }
  }
}
