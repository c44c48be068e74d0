/** The trip-progress widget (client/src/components/MapMock.tsx): from the
    clock and the trip's departure and arrival instants (milliseconds), the
    trip's status, the share of it travelled, and the countdown text. */
module MapMock {
  import opened Common

  datatype Status = Before | During | After

  /** The countdown text, by its pattern. */
  datatype Eta =
    | DepartsInHours(hours: int, minutes: int)   // "Departs in Hh Mm"
    | DepartsInMinutes(minutes: int)             // "Departs in Mm"
    | Completed                                  // "Trip completed"
    | EtaHours(hours: int, minutes: int)         // "ETA: Hh Mm"
    | EtaMinutes(minutes: int)                   // "ETA: M min"

  /** What one refresh sets. The progress is None where JavaScript computes
      0 / 0 (NaN): departure, arrival and now all equal. */
  datatype View = View(status: Status, progress: Option<real>, eta: Eta)

  const MsPerMinute: int := 60000

  /** `Math.min(Math.max(x, 0), 1)` */
  function Clamp01(x: real): (r: real)
    ensures 0.0 <= r <= 1.0
    ensures 0.0 <= x <= 1.0 ==> r == x
  {
    if x < 0.0 then 0.0 else if x > 1.0 then 1.0 else x
  }

  /** Hours and the minutes left over, shown with hours only when there is
      at least one. */
  function Countdown(minutes: int, before: bool): Eta {
    var hours := minutes / 60;
    var rest := minutes % 60;
    if before then (if hours > 0 then DepartsInHours(hours, rest) else DepartsInMinutes(minutes))
    else (if hours > 0 then EtaHours(hours, rest) else EtaMinutes(minutes))
  }

  /** `updateProgress` */
  function Update(now: int, departure: int, arrival: int): (v: View)
    ensures v.status == Before <==> now < departure
    ensures v.status == After <==> departure <= now && now > arrival
    ensures v.status == During <==> departure <= now <= arrival
  {
    if now < departure then
      View(Before, Some(0.0), Countdown((departure - now) / MsPerMinute, true))
    else if now > arrival then
      View(After, Some(1.0), Completed)
    else
      var duration := arrival - departure;
      var elapsed := now - departure;
      var progress := if duration == 0 then None else Some(Clamp01(elapsed as real / duration as real));
      View(During, progress, Countdown((arrival - now + MsPerMinute - 1) / MsPerMinute, false))
  }

  /** Progress is 0 before the trip, 1 after it, and between 0 and 1 while it
      runs, whenever the trip takes some time. */
  lemma ProgressBounds(now: int, departure: int, arrival: int)
    requires departure < arrival
    ensures var v := Update(now, departure, arrival);
            v.progress.Some? && 0.0 <= v.progress.value <= 1.0
            && (v.status == Before ==> v.progress.value == 0.0)
            && (v.status == After ==> v.progress.value == 1.0)
            && (v.status == During ==>
                  v.progress.value * (arrival - departure) as real == (now - departure) as real)
  {
    if departure <= now <= arrival {
      var d := (arrival - departure) as real;
      var e := (now - departure) as real;
      assert 0.0 <= e / d <= 1.0;
      assert e / d * d == e;
    }
  }

  /** Both instants themselves count as during the trip. */
  lemma BoundariesAreDuring(departure: int, arrival: int)
    requires departure <= arrival
    ensures Update(departure, departure, arrival).status == During
    ensures Update(arrival, departure, arrival).status == During
  {
  }

  /** Before departure the whole minutes left are floored; hours and the
      remainder recompose them, and hours are shown exactly from an hour on. */
  lemma BeforeCountdown(now: int, departure: int)
    requires now < departure
    ensures var minutes := (departure - now) / MsPerMinute;
            && minutes * MsPerMinute <= departure - now < (minutes + 1) * MsPerMinute
            && match Update(now, departure, departure + 1).eta
               case DepartsInHours(h, m) => minutes >= 60 && h * 60 + m == minutes && 0 <= m < 60
               case DepartsInMinutes(m) => minutes < 60 && m == minutes
               case _ => false
  {
  }

  /** During the trip the minutes to arrival are rounded up. */
  lemma DuringCountdown(now: int, departure: int, arrival: int)
    requires departure <= now <= arrival
    ensures var minutes := (arrival - now + MsPerMinute - 1) / MsPerMinute;
            && (minutes - 1) * MsPerMinute < arrival - now <= minutes * MsPerMinute
            && match Update(now, departure, arrival).eta
               case EtaHours(h, m) => minutes >= 60 && h * 60 + m == minutes && 0 <= m < 60
               case EtaMinutes(m) => minutes < 60 && m == minutes
               case _ => false
  {
  }
}
