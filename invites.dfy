/** Invite expiry. Instants are nanoseconds since the Unix epoch, as the
    clock reading `OffsetDateTime::now_utc()` is passed in as `now`. */
module Invites {

  const NanosPerDay := 86_400_000_000_000

  /** `calculate_expiration`: the creation instant plus the duration in days. */
  function Expiration(createdAt: int, durationDays: int): (e: int)
    ensures e - createdAt == durationDays * NanosPerDay
  {
    createdAt + durationDays * NanosPerDay
  }

  /** `is_invite_valid`: a non-positive duration is never valid; otherwise
      the invite is valid strictly before creation plus the duration. */
  function IsInviteValid(createdAt: int, durationDays: int, now: int): (b: bool)
    ensures durationDays <= 0 ==> !b
    ensures durationDays > 0 ==> (b <==> now - createdAt < durationDays * NanosPerDay)
  {
    if durationDays <= 0 then false
    else now < createdAt + durationDays * NanosPerDay
  }

  /** For a positive duration, validity is being before the expiration. */
  lemma ValidIffBeforeExpiration(createdAt: int, durationDays: int, now: int)
    requires durationDays > 0
    ensures IsInviteValid(createdAt, durationDays, now) <==> now < Expiration(createdAt, durationDays)
  {
  }

  /** At the expiration instant itself the invite is no longer valid. */
  lemma ExpirationIsExclusive(createdAt: int, durationDays: int)
    ensures !IsInviteValid(createdAt, durationDays, Expiration(createdAt, durationDays))
  {
  }

  /** An invite with a positive duration is valid when it is created. */
  lemma ValidAtCreation(createdAt: int, durationDays: int)
    requires durationDays > 0
    ensures IsInviteValid(createdAt, durationDays, createdAt)
  {
  }

  /** Once expired, an invite stays expired at every later instant. */
  lemma ExpiredStaysExpired(createdAt: int, durationDays: int, now: int, later: int)
    requires !IsInviteValid(createdAt, durationDays, now) && now <= later
    ensures !IsInviteValid(createdAt, durationDays, later)
  {
  }
}
