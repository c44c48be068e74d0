/** Seat-available subscriptions: the subscribe handler's de-duplication
    (POST /api/notify-seat) and the release loop of the cancel handler, which
    marks a pending subscription sent only after its e-mail went out. */
module Notifications {
  import opened Common
  import opened Text
  import opened Tables
  import opened RouteRules

  function NotificationId(n: SeatNotification): int {
    n.id
  }

  /** `markNotificationSent(id)`: the rows with that id become sent. */
  function MarkSent(ns: seq<SeatNotification>, id: int): (r: seq<SeatNotification>)
    ensures |r| == |ns|
  {
    seq(|ns|, i requires 0 <= i < |ns| => if ns[i].id == id then ns[i].(notified := true) else ns[i])
  }

  /** Every row whose id is in `ids` becomes sent; ids, shows, seats and
      e-mails stay as they were. */
  function MarkIds(ns: seq<SeatNotification>, ids: set<int>): (r: seq<SeatNotification>)
    ensures |r| == |ns|
    ensures forall i :: 0 <= i < |ns| ==>
              r[i].id == ns[i].id && r[i].showId == ns[i].showId && r[i].seatNumber == ns[i].seatNumber
              && r[i].email == ns[i].email && (r[i].notified <==> ns[i].notified || ns[i].id in ids)
  {
    seq(|ns|, i requires 0 <= i < |ns| => if ns[i].id in ids then ns[i].(notified := true) else ns[i])
  }

  lemma MarkSentAfterMarkIds(ns: seq<SeatNotification>, ids: set<int>, id: int)
    ensures MarkSent(MarkIds(ns, ids), id) == MarkIds(ns, ids + {id})
  {
  }

  /** A row the release of seats labelled `labels` of a show e-mails and
      marks: still pending, for that show and one of the labels, and its send
      does not fail. */
  predicate Sendable(n: SeatNotification, showId: int, labels: set<string>, failed: set<int>) {
    !n.notified && n.showId == showId && n.seatNumber in labels && n.id !in failed
  }

  function SentIds(ns: seq<SeatNotification>, showId: int, labels: set<string>, failed: set<int>): set<int> {
    set k | 0 <= k < |ns| && Sendable(ns[k], showId, labels, failed) :: ns[k].id
  }

  /** The subscriptions table after the release loop has run over seats with
      the given labels. */
  function ReleaseNotify(ns: seq<SeatNotification>, showId: int, labels: set<string>, failed: set<int>): seq<SeatNotification> {
    MarkIds(ns, SentIds(ns, showId, labels, failed))
  }

  /** The ids the inner loop has sent so far: the first `j` pending rows whose
      send succeeds. */
  function SentSoFar(pending: seq<SeatNotification>, j: nat, failed: set<int>): set<int>
    requires j <= |pending|
  {
    set k | 0 <= k < j && pending[k].id !in failed :: pending[k].id
  }

  function LabelOf(s: Seat): string {
    SeatLabel(s.seatNumber)
  }

  /** The labels of the released seats, as the subscriptions store them. */
  function Labels(seats: seq<Seat>): set<string> {
    Image(seats, LabelOf)
  }

  /** One more released seat: sending to the rows still pending for its label
      in the current table extends the release by that label. */
  lemma ReleaseOneMore(ns: seq<SeatNotification>, showId: int, labels: set<string>, added: string, failed: set<int>)
    ensures var cur := ReleaseNotify(ns, showId, labels, failed);
            var pending := PendingNotifications(cur, showId, added);
            MarkIds(cur, SentSoFar(pending, |pending|, failed)) == ReleaseNotify(ns, showId, labels + {added}, failed)
  {
    var a := SentIds(ns, showId, labels, failed);
    var cur := MarkIds(ns, a);
    var pending := PendingNotifications(cur, showId, added);
    var b := SentSoFar(pending, |pending|, failed);
    var c := SentIds(ns, showId, labels + {added}, failed);
    assert a + b == c by {
      forall x | x in b ensures x in c {
        var j :| 0 <= j < |pending| && pending[j].id !in failed && pending[j].id == x;
        FilterMembership(cur, (n: SeatNotification) => PendingFor(n, showId, added), pending[j]);
        var k :| 0 <= k < |cur| && cur[k] == pending[j];
        assert Sendable(ns[k], showId, labels + {added}, failed);
      }
      forall x | x in c && x !in a ensures x in b {
        var k :| 0 <= k < |ns| && Sendable(ns[k], showId, labels + {added}, failed) && ns[k].id == x;
        assert ns[k].seatNumber == added;
        assert cur[k] == ns[k];
        FilterMembership(cur, (n: SeatNotification) => PendingFor(n, showId, added), cur[k]);
        var j :| 0 <= j < |pending| && pending[j] == cur[k];
      }
      forall x | x in a ensures x in c {
        var k :| 0 <= k < |ns| && Sendable(ns[k], showId, labels, failed) && ns[k].id == x;
        assert Sendable(ns[k], showId, labels + {added}, failed);
      }
    }
    assert MarkIds(cur, b) == MarkIds(ns, a + b);
  }

  /** With unique ids, the release marks exactly the pending rows for the
      show's released labels whose send succeeds; a failed send leaves its row
      pending, and nothing else changes. */
  lemma ReleaseNotifyEffect(ns: seq<SeatNotification>, showId: int, labels: set<string>, failed: set<int>, k: nat)
    requires KeysDistinct(ns, NotificationId) && k < |ns|
    ensures ReleaseNotify(ns, showId, labels, failed)[k] ==
            if Sendable(ns[k], showId, labels, failed) then ns[k].(notified := true) else ns[k]
  {
    var ids := SentIds(ns, showId, labels, failed);
    if ns[k].id in ids && !Sendable(ns[k], showId, labels, failed) {
      assert false;
    }
  }

  /** The row a subscription stores: the label normalised, the e-mail lower
      case, pending. */
  function NewSubscription(id: int, showId: int, seatNumber: string, email: string): SeatNotification {
    SeatNotification(id, showId, SeatLabel(seatNumber), Lower(email), false)
  }

  /** A pending row appended to the table is listed for its show and label. */
  lemma AppendedRowPending(ns: seq<SeatNotification>, row: SeatNotification, showId: int, seatLabel: string)
    requires PendingFor(row, showId, seatLabel)
    ensures row in PendingNotifications(ns + [row], showId, seatLabel)
  {
    var ns' := ns + [row];
    assert row in ns' by { assert ns'[|ns|] == row; }
    FilterMembership(ns', (n: SeatNotification) => PendingFor(n, showId, seatLabel), row);
  }

  /** Once subscribed, the same address in any letter case for the same seat
      label is recognised as already subscribed, so it is not stored twice. */
  lemma SubscribeDeduplicates(ns: seq<SeatNotification>, id: int, showId: int,
                              seatNumber: string, email: string, seatNumber2: string, email2: string)
    requires SeatLabel(seatNumber2) == SeatLabel(seatNumber)
    requires EqualsIgnoreCase(email, email2)
    ensures AlreadySubscribed(PendingNotifications(ns + [NewSubscription(id, showId, seatNumber, email)],
                                                   showId, SeatLabel(seatNumber2)), email2)
  {
    var row := NewSubscription(id, showId, seatNumber, email);
    var pending := PendingNotifications(ns + [row], showId, SeatLabel(seatNumber2));
    AppendedRowPending(ns, row, showId, SeatLabel(seatNumber2));
    var k :| 0 <= k < |pending| && pending[k] == row;
    LowerIdempotent(email);
    assert EqualsIgnoreCase(pending[k].email, email2);
  }

  lemma MarkNothing(ns: seq<SeatNotification>)
    ensures MarkIds(ns, {}) == ns
  {
  }

  /** Releasing no seats changes nothing. */
  lemma ReleaseNothing(ns: seq<SeatNotification>, showId: int, failed: set<int>)
    ensures ReleaseNotify(ns, showId, {}, failed) == ns
  {
    assert SentIds(ns, showId, {}, failed) == {};
    MarkNothing(ns);
  }

  /** One round of the release loop: sending for the next released seat's
      label extends the release to that seat. */
  lemma ReleaseStep(ns: seq<SeatNotification>, showId: int, released: seq<Seat>, i: nat, failed: set<int>,
                    cur: seq<SeatNotification>, after: seq<SeatNotification>)
    requires i < |released|
    requires cur == ReleaseNotify(ns, showId, Labels(released[..i]), failed)
    requires var pending := PendingNotifications(cur, showId, SeatLabel(released[i].seatNumber));
             after == MarkIds(cur, SentSoFar(pending, |pending|, failed))
    ensures after == ReleaseNotify(ns, showId, Labels(released[..i + 1]), failed)
  {
    LabelsPrefix(released, i);
    ReleaseOneMore(ns, showId, Labels(released[..i]), SeatLabel(released[i].seatNumber), failed);
  }

  lemma LabelsPrefix(seats: seq<Seat>, i: nat)
    requires i < |seats|
    ensures Labels(seats[..i + 1]) == Labels(seats[..i]) + {SeatLabel(seats[i].seatNumber)}
  {
    assert seats[..i + 1] == seats[..i] + [seats[i]];
    ImageSnoc(seats[..i], seats[i], LabelOf);
  }
}
