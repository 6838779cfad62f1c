/**
 * The connection-status screen's model: how long the client certificate is
 * still valid, shown in the two largest fitting units; the support contacts
 * of the current instance as one line; and when renewing the session is
 * allowed.
 */
module ConnectionStatus {
  import opened Wrappers
  import opened Strings
  import opened Longs

  // ---------------------------------------------------------------- Certificate expiry

  /** The remaining validity in the units the screen shows. */
  datatype Bucket =
    | Seconds(seconds: nat)
    | MinutesSeconds(minutes: nat, seconds: nat)
    | HoursMinutes(hours: nat, minutes: nat)
    | DaysHours(days: nat, hours: nat)
    | Days(days: nat)

  /** What `certValidity` shows. */
  datatype CertValidity = Expired | ValidFor(bucket: Bucket)

  /** The one parent action of the screen. */
  datatype ParentAction = SessionExpired

  /** The duration a bucket shows, in seconds. */
  function Shown(b: Bucket): nat {
    match b
    case Seconds(s) => s
    case MinutesSeconds(m, s) => m * 60 + s
    case HoursMinutes(h, m) => h * 3600 + m * 60
    case DaysHours(d, h) => d * 86400 + h * 3600
    case Days(d) => d * 86400
  }

  /** The unit of a bucket's last part, in seconds. */
  function Resolution(b: Bucket): nat {
    match b
    case Seconds(_) => 1
    case MinutesSeconds(_, _) => 1
    case HoursMinutes(_, _) => 60
    case DaysHours(_, _) => 3600
    case Days(_) => 86400
  }

  /**
   * The bucketing of `updateCertExpiry` for `d` seconds left: under a minute,
   * an hour, a day and 30 days the two largest units, beyond that days only.
   * What is shown never exceeds the time left and falls short of it by less
   * than the unit of the last part shown, and every part after the first is
   * below its next-larger unit.
   */
  function BucketOf(d: nat): (b: Bucket)
    ensures b.Seconds? <==> d < 60
    ensures b.MinutesSeconds? <==> 60 <= d < 3600
    ensures b.HoursMinutes? <==> 3600 <= d < 86400
    ensures b.DaysHours? <==> 86400 <= d < 2592000
    ensures b.Days? <==> 2592000 <= d
    ensures Shown(b) <= d < Shown(b) + Resolution(b)
    ensures b.MinutesSeconds? ==> 1 <= b.minutes < 60 && b.seconds < 60
    ensures b.HoursMinutes? ==> 1 <= b.hours < 24 && b.minutes < 60
    ensures b.DaysHours? ==> 1 <= b.days < 30 && b.hours < 24
    ensures b.Days? ==> b.days >= 30
  {
    if d < 60 then Seconds(d)
    else if d < 3600 then MinutesSeconds(d / 60, d % 60)
    else if d < 3600 * 24 then HoursMinutes(d / 3600, d % 3600 / 60)
    else if d < 3600 * 24 * 30 then DaysHours(d / (3600 * 24), d % (3600 * 24) / 3600)
    else Days(d / (3600 * 24))
  }

  /** What `updateCertExpiry` shows at `now` for a certificate expiring at `expiry` (both epoch milliseconds). */
  function ValidityAt(expiry: int, now: int): CertValidity {
    var timeDifferenceInSeconds := MillisToSeconds(expiry - now);
    if timeDifferenceInSeconds < 0 then Expired else ValidFor(BucketOf(timeDifferenceInSeconds))
  }

  /**
   * Because the division truncates toward zero, a certificate counts as
   * expired only from one whole second past its expiry; until then the
   * whole seconds left are shown.
   */
  lemma ValidityAtSpec(expiry: int, now: int)
    ensures ValidityAt(expiry, now) == Expired <==> expiry + 1000 <= now
    ensures now <= expiry ==>
      ValidityAt(expiry, now) == ValidFor(BucketOf((expiry - now) / 1000))
    ensures expiry < now < expiry + 1000 ==> ValidityAt(expiry, now) == ValidFor(Seconds(0))
  {
  }

  /** The screen's certificate and session fields. */
  class ConnectionStatusViewModel {
    var certExpiryTime: Option<int>
    var certValidity: Option<CertValidity>
    var parentAction: Option<ParentAction>

    /** The screen opens on the saved key pair's expiry and shows it at once, as `refreshProfile` does. */
    constructor(expiry: Option<int>, now: int)
      ensures certExpiryTime == expiry
      ensures certValidity == (if expiry.None? then None else Some(ValidityAt(expiry.value, now)))
      ensures expiry.Some? && ValidityAt(expiry.value, now) == Expired ==> parentAction == Some(SessionExpired)
    {
      certExpiryTime := expiry;
      certValidity := None;
      parentAction := None;
      new;
      var _ := UpdateCertExpiry(now);
    }

    /**
     * `updateCertExpiry`: without an expiry the validity is cleared; an
     * expired certificate shows as expired and raises `SessionExpired`;
     * otherwise the remaining time is shown. The result says whether to keep
     * updating, which is exactly while the certificate is valid.
     */
    method UpdateCertExpiry(now: int) returns (keepUpdating: bool)
      modifies this
      ensures certExpiryTime == old(certExpiryTime)
      ensures certExpiryTime.None? ==> certValidity.None? && !keepUpdating && parentAction == old(parentAction)
      ensures certExpiryTime.Some? ==> certValidity == Some(ValidityAt(certExpiryTime.value, now))
      ensures certExpiryTime.Some? ==> (keepUpdating <==> certValidity.value != Expired)
      ensures certExpiryTime.Some? && certValidity.value == Expired ==> parentAction == Some(SessionExpired)
      ensures certExpiryTime.Some? && certValidity.value != Expired ==> parentAction == old(parentAction)
    {
      if certExpiryTime.None? {
        certValidity := None;
        return false;
      }
      var timeDifferenceInSeconds := MillisToSeconds(certExpiryTime.value - now);
      if timeDifferenceInSeconds < 0 {
        certValidity := Some(Expired);
        parentAction := Some(SessionExpired);
        return false;
      }
      certValidity := Some(ValidFor(BucketOf(timeDifferenceInSeconds)));
      return true;
    }
  }

  // ---------------------------------------------------------------- Support contacts

  /** A contact with its `mailto:` or `tel:` scheme removed (`replace` removes every occurrence). */
  function StripContact(contact: string): string {
    if "mailto:" <= contact then ReplaceAll(contact, "mailto:", "")
    else if "tel:" <= contact then ReplaceAll(contact, "tel:", "")
    else contact
  }

  /** Stripping undoes prefixing a scheme to an address that does not repeat it. */
  lemma StripContactScheme(address: string)
    ensures !Contains(address, "mailto:") ==> StripContact("mailto:" + address) == address
    ensures !Contains(address, "tel:") ==> StripContact("tel:" + address) == address
  {
    if !Contains(address, "mailto:") {
      assert ("mailto:" + address)[7..] == address;
      ReplaceAllAbsent(address, "mailto:", "");
    }
    if !Contains(address, "tel:") {
      assert ("tel:" + address)[4..] == address;
      assert !("mailto:" <= "tel:" + address) by {
        assert ("tel:" + address)[0] == 't';
      }
      ReplaceAllAbsent(address, "tel:", "");
    }
  }

  /** Every contact stripped, in order. */
  function StripAll(contacts: seq<string>): seq<string> {
    seq(|contacts|, i requires 0 <= i < |contacts| => StripContact(contacts[i]))
  }

  /**
   * Each contact loses its `mailto:` or `tel:` scheme, when it does not
   * repeat the scheme; a contact with neither scheme is kept as it is.
   */
  lemma StripAllSchemes(contacts: seq<string>)
    ensures forall i :: 0 <= i < |contacts| && "mailto:" <= contacts[i] && !Contains(contacts[i][7..], "mailto:") ==>
      StripAll(contacts)[i] == contacts[i][7..]
    ensures forall i :: 0 <= i < |contacts| && "tel:" <= contacts[i] && !Contains(contacts[i][4..], "tel:") ==>
      StripAll(contacts)[i] == contacts[i][4..]
    ensures forall i :: 0 <= i < |contacts| && !("mailto:" <= contacts[i]) && !("tel:" <= contacts[i]) ==>
      StripAll(contacts)[i] == contacts[i]
  {
    forall i | 0 <= i < |contacts| && "mailto:" <= contacts[i] && !Contains(contacts[i][7..], "mailto:")
      ensures StripAll(contacts)[i] == contacts[i][7..]
    {
      assert contacts[i] == "mailto:" + contacts[i][7..];
      StripContactScheme(contacts[i][7..]);
    }
    forall i | 0 <= i < |contacts| && "tel:" <= contacts[i] && !Contains(contacts[i][4..], "tel:")
      ensures StripAll(contacts)[i] == contacts[i][4..]
    {
      assert contacts[i] == "tel:" + contacts[i][4..];
      StripContactScheme(contacts[i][4..]);
    }
  }

  /** What the `StringBuilder` holds before the last separator is deleted: each part followed by `sep`. */
  function Terminated(parts: seq<string>, sep: string): string {
    if |parts| == 0 then ""
    else Terminated(parts[..|parts| - 1], sep) + parts[|parts| - 1] + sep
  }

  /** Appending a part to a joined list adds one separator and the part. */
  lemma {:induction false} JoinSnoc(parts: seq<string>, part: string, sep: string)
    requires |parts| >= 1
    ensures Join(parts + [part], sep) == Join(parts, sep) + sep + part
    decreases |parts|
  {
    if |parts| == 1 {
      assert (parts + [part])[1..] == [part];
    } else {
      JoinSnoc(parts[1..], part, sep);
      assert (parts + [part])[1..] == parts[1..] + [part];
    }
  }

  /** Terminating every part is joining them and adding one separator at the end. */
  lemma {:induction false} TerminatedJoin(parts: seq<string>, sep: string)
    requires |parts| >= 1
    ensures Terminated(parts, sep) == Join(parts, sep) + sep
  {
    var n := |parts| - 1;
    if n == 0 {
      assert parts[..n] == [];
    } else {
      TerminatedJoin(parts[..n], sep);
      JoinSnoc(parts[..n], parts[n], sep);
      assert parts[..n] + [parts[n]] == parts;
    }
  }

  /**
   * The support-contact line built in `init`: nothing without a current
   * instance or without contacts, otherwise the stripped contacts separated
   * by `", "`, with no separator at the end.
   */
  method FormatSupportContacts(supportContacts: Option<seq<string>>) returns (r: Option<string>)
    ensures supportContacts.None? || |supportContacts.value| == 0 ==> r.None?
    ensures supportContacts.Some? && |supportContacts.value| > 0 ==>
      r == Some(Join(StripAll(supportContacts.value), ", "))
  {
    if supportContacts.None? || |supportContacts.value| == 0 {
      return None;
    }
    var contacts := supportContacts.value;
    var builder := "";
    var i := 0;
    while i < |contacts|
      invariant 0 <= i <= |contacts|
      invariant builder == Terminated(StripAll(contacts)[..i], ", ")
    {
      var contact := contacts[i];
      if "mailto:" <= contact {
        builder := builder + ReplaceAll(contact, "mailto:", "");
      } else if "tel:" <= contact {
        builder := builder + ReplaceAll(contact, "tel:", "");
      } else {
        builder := builder + contact;
      }
      builder := builder + ", ";
      assert StripAll(contacts)[..i + 1][..i] == StripAll(contacts)[..i];
      i := i + 1;
    }
    assert StripAll(contacts)[..i] == StripAll(contacts);
    TerminatedJoin(StripAll(contacts), ", ");
    builder := builder[..|builder| - 2];
    return Some(builder);
  }

  // ---------------------------------------------------------------- Session renewal

  /** `30 * 60 * 1000`: renewal is allowed 30 minutes after authenticating. */
  const RenewAfterMillis: int := 30 * 60 * 1000

  /** The `canRenew` live data: true from the start, or false until a delay has passed and true after. */
  datatype RenewSchedule = RenewNow | RenewAfter(delayMillis: int)

  /** How `init` sets up `canRenew` at `now` from the cached authentication date, if any. */
  function CanRenewSchedule(authenticationDate: Option<int>, now: int): (s: RenewSchedule)
    ensures s.RenewAfter? ==> s.delayMillis > 0
  {
    if authenticationDate.None? then RenewNow
    else
      var canRenewAt := authenticationDate.value + RenewAfterMillis;
      var remaining := canRenewAt - now;
      if remaining > 0 then RenewAfter(remaining) else RenewNow
  }

  /** The value the schedule set up at `now` holds at a later time `t`. */
  function CanRenewAt(s: RenewSchedule, now: int, t: int): bool {
    match s
    case RenewNow => true
    case RenewAfter(delay) => t >= now + delay
  }

  /** Renewal is possible at any time `t` from setup on iff there is no authentication date or it lies 30 minutes or more before `t`. */
  lemma CanRenewRule(authenticationDate: Option<int>, now: int, t: int)
    requires now <= t
    ensures CanRenewAt(CanRenewSchedule(authenticationDate, now), now, t) <==>
      authenticationDate.None? || authenticationDate.value + RenewAfterMillis <= t
  {
  }
}
