/** The tee-time record: creation, the `arrayUnion` claim written by the data
    layer, the claim the card's button lets through, and the state each card
    derives for display.

    A user id is a string; the empty string stands for "no signed-in user",
    since the application tests `userId` for truthiness and treats a missing
    id and an empty one alike. A document without a `players` field counts
    as having none (`players?.length || 0`, `players?.includes`), which is
    exactly how the empty sequence behaves below.
 */
module TeeTimes {
  import opened Calendar
  import opened Ordering

  type UserId = string

  /** The fields the booking form submits. */
  datatype TeeTimeData = TeeTimeData(course: string, date: Date, time: Clock, totalSpots: int)

  /** A stored tee-time document; `players` is in join order. */
  datatype TeeTime = TeeTime(
    course: string,
    date: Date,
    time: Clock,
    totalSpots: int,
    players: seq<UserId>,
    creatorId: UserId)

  /** The submitted part of a tee time. */
  function Submitted(t: TeeTime): TeeTimeData
  {
    TeeTimeData(t.course, t.date, t.time, t.totalSpots)
  }

  predicate NoDuplicates(s: seq<UserId>)
  {
    forall i, j :: 0 <= i < j < |s| ==> s[i] != s[j]
  }

  /** What every tee time written by the application satisfies: the creator
      joined first and nobody appears twice. */
  predicate WellFormed(t: TeeTime)
  {
    |t.players| >= 1 && t.players[0] == t.creatorId && NoDuplicates(t.players)
  }

  /** The group is not overbooked. */
  predicate WithinCapacity(t: TeeTime)
  {
    |t.players| <= t.totalSpots
  }

  /** `handleAddTeeTime`'s document: the submitted fields, the creator as the
      one player and as `creatorId`. */
  function Create(data: TeeTimeData, creator: UserId): (t: TeeTime)
    ensures Submitted(t) == data
    ensures t.players == [creator] && t.creatorId == creator
    ensures WellFormed(t)
    ensures WithinCapacity(t) <==> data.totalSpots >= 1
  {
    TeeTime(data.course, data.date, data.time, data.totalSpots, [creator], creator)
  }

  /** `arrayUnion(user)` on `players`: appended only when absent; no capacity
      check is made at write time. */
  function Claim(t: TeeTime, user: UserId): (r: TeeTime)
    ensures Submitted(r) == Submitted(t) && r.creatorId == t.creatorId
    ensures forall p :: p in r.players <==> p in t.players || p == user
    ensures |t.players| <= |r.players| && r.players[..|t.players|] == t.players
    ensures |r.players| == |t.players| + (if user in t.players then 0 else 1)
    ensures NoDuplicates(t.players) ==> NoDuplicates(r.players)
    ensures WellFormed(t) ==> WellFormed(r)
  {
    if user in t.players then t else t.(players := t.players + [user])
  }

  // ---- What each card derives ----

  function AvailableSpots(t: TeeTime): int
  {
    t.totalSpots - |t.players|
  }

  predicate IsFull(t: TeeTime)
  {
    AvailableSpots(t) <= 0
  }

  /** A signed-in user whose id is among the players. */
  predicate HasJoined(t: TeeTime, user: UserId)
  {
    user != "" && user in t.players
  }

  /** The slot's start lies before the current instant. */
  predicate IsPast(t: TeeTime, now: Moment)
  {
    BeforeMoment(t.date, t.time, now)
  }

  /** A slot is past exactly when its start, as a time value in milliseconds,
      is smaller than that of the current instant. */
  lemma PastState(t: TeeTime, now: Moment)
    requires ValidDate(t.date) && ValidDate(now.date)
    ensures IsPast(t, now) <==> MinuteNumber(t.date, t.time) * 60000 < MomentMillis(now)
  {
    BeforeMomentAsMillis(t.date, t.time, now);
  }

  /** Once past, a slot stays past as time goes on. */
  lemma IsPastMonotone(t: TeeTime, now: Moment, later: Moment)
    requires ValidDate(t.date) && ValidDate(now.date) && ValidDate(later.date)
    requires MomentMillis(now) <= MomentMillis(later)
    ensures IsPast(t, now) ==> IsPast(t, later)
  {
    PastState(t, now);
    PastState(t, later);
  }

  /** The claim button is shown (not past) and enabled (not full, not joined). */
  predicate ClaimEnabled(t: TeeTime, user: UserId, now: Moment)
  {
    !IsPast(t, now) && !(IsFull(t) || HasJoined(t, user))
  }

  lemma CardState(t: TeeTime, user: UserId)
    ensures AvailableSpots(t) + |t.players| == t.totalSpots
    ensures IsFull(t) <==> |t.players| >= t.totalSpots
    ensures !IsFull(t) <==> AvailableSpots(t) >= 1
    ensures user != "" ==> (HasJoined(t, user) <==> user in t.players)
  {
  }

  /** A claim takes a spot exactly when the claimer was not yet a player. */
  lemma ClaimTakesOneSpot(t: TeeTime, user: UserId)
    ensures AvailableSpots(Claim(t, user)) == AvailableSpots(t) - (if user in t.players then 0 else 1)
    ensures user != "" ==> HasJoined(Claim(t, user), user)
  {
  }

  /** Claiming twice is claiming once. */
  lemma ClaimIdempotent(t: TeeTime, user: UserId)
    ensures Claim(Claim(t, user), user) == Claim(t, user)
    ensures user in t.players ==> Claim(t, user) == t
  {
  }

  /** The claim a card lets through: the button must be enabled and the
      handler needs a signed-in user; otherwise nothing is written. */
  function GuardedClaim(t: TeeTime, user: UserId, now: Moment): (r: TeeTime)
    ensures WithinCapacity(t) ==> WithinCapacity(r)
    ensures WellFormed(t) ==> WellFormed(r)
    ensures Submitted(r) == Submitted(t) && r.creatorId == t.creatorId
    ensures (r.players == t.players + [user]) == (ClaimEnabled(t, user, now) && user != "")
    ensures !(ClaimEnabled(t, user, now) && user != "") ==> r == t
  {
    if ClaimEnabled(t, user, now) && user != "" then Claim(t, user) else t
  }

  /** One press of a card's claim button, by `user` at instant `now`. */
  datatype ClaimAttempt = ClaimAttempt(user: UserId, now: Moment)

  /** Claims through the card, one after another. */
  function GuardedClaims(t: TeeTime, attempts: seq<ClaimAttempt>): TeeTime
    decreases |attempts|
  {
    if attempts == [] then t
    else GuardedClaims(GuardedClaim(t, attempts[0].user, attempts[0].now), attempts[1..])
  }

  /** Data-layer claims, one after another. */
  function Claims(t: TeeTime, users: seq<UserId>): TeeTime
    decreases |users|
  {
    if users == [] then t else Claims(Claim(t, users[0]), users[1..])
  }

  /** However many claims go through the card one at a time, the group is
      never overbooked and stays free of duplicates. */
  lemma {:induction false} GuardedClaimsKeepCapacity(t: TeeTime, attempts: seq<ClaimAttempt>)
    requires WellFormed(t) && WithinCapacity(t)
    ensures WellFormed(GuardedClaims(t, attempts)) && WithinCapacity(GuardedClaims(t, attempts))
    ensures Submitted(GuardedClaims(t, attempts)) == Submitted(t)
    decreases |attempts|
  {
    if attempts != [] {
      GuardedClaimsKeepCapacity(GuardedClaim(t, attempts[0].user, attempts[0].now), attempts[1..]);
    }
  }

  /** Data-layer claims never duplicate a player, keep every earlier player
      in place, and leave every claimer among the players. */
  lemma {:induction false} ClaimsKeepPlayers(t: TeeTime, users: seq<UserId>)
    requires NoDuplicates(t.players)
    ensures NoDuplicates(Claims(t, users).players)
    ensures |t.players| <= |Claims(t, users).players|
    ensures Claims(t, users).players[..|t.players|] == t.players
    ensures forall u :: u in users ==> u in Claims(t, users).players
    ensures forall p :: p in Claims(t, users).players <==> p in t.players || p in users
    decreases |users|
  {
    if users != [] {
      var t' := Claim(t, users[0]);
      ClaimsKeepPlayers(t', users[1..]);
      var r := Claims(t', users[1..]);
      assert r.players[..|t.players|] == r.players[..|t'.players|][..|t.players|];
      forall p ensures p in r.players <==> p in t.players || p in users {
        assert p in users <==> p == users[0] || p in users[1..];
      }
    }
  }

  /** The data layer alone can overbook: a full group still takes a new player. */
  lemma UnguardedClaimCanOverbook()
    ensures var t := TeeTime("Pine Valley", Date(2025, 6, 1), Clock(9, 0), 2, ["u1", "u2"], "u1");
            WithinCapacity(t) && IsFull(t) && !WithinCapacity(Claim(t, "u3"))
  {
  }

  /** Post for four, one more joins, the creator's second claim changes nothing. */
  lemma PineValleyScenario(tomorrow: Date)
    ensures var t0 := Create(TeeTimeData("Pine Valley", tomorrow, Clock(14, 0), 4), "u1");
            var t1 := Claim(t0, "u2");
            t0.players == ["u1"] && AvailableSpots(t0) == 3
            && t1.players == ["u1", "u2"] && AvailableSpots(t1) == 2
            && Claim(t1, "u1") == t1
  {
    var t0 := Create(TeeTimeData("Pine Valley", tomorrow, Clock(14, 0), 4), "u1");
    assert "u2" !in t0.players;
    assert "u1" in Claim(t0, "u2").players;
  }

  // ---- Display order ----

  /** The sort key of a slot: date, then time of day. */
  function StartKey(t: TeeTime): (k: seq<int>)
    ensures |k| == 5
  {
    [t.date.year, t.date.month, t.date.day, t.time.hour, t.time.minute]
  }

  /** Ascending key order is ascending start order. */
  lemma StartKeyOrder(a: TeeTime, b: TeeTime)
    ensures LexLe(StartKey(a), StartKey(b)) <==> !StartBefore(b.date, b.time, a.date, a.time)
  {
    var ka, kb := StartKey(a), StartKey(b);
    LexLeCons(a.time.minute, [], b.time.minute, []);
    LexLeCons(a.time.hour, ka[4..], b.time.hour, kb[4..]);
    LexLeCons(a.date.day, ka[3..], b.date.day, kb[3..]);
    LexLeCons(a.date.month, ka[2..], b.date.month, kb[2..]);
    LexLeCons(a.date.year, ka[1..], b.date.year, kb[1..]);
    assert ka == [a.date.year] + ka[1..] && ka[1..] == [a.date.month] + ka[2..];
    assert ka[2..] == [a.date.day] + ka[3..] && ka[3..] == [a.time.hour] + ka[4..];
    assert kb == [b.date.year] + kb[1..] && kb[1..] == [b.date.month] + kb[2..];
    assert kb[2..] == [b.date.day] + kb[3..] && kb[3..] == [b.time.hour] + kb[4..];
    assert ka[4..] == [a.time.minute] + [] && kb[4..] == [b.time.minute] + [];
  }

  /** The key order is that of the comparator `new Date(a) - new Date(b)`:
      `a` sorts no later than `b` exactly when the difference of their start
      time values is not positive. */
  lemma StartKeyMatchesComparator(a: TeeTime, b: TeeTime)
    requires ValidDate(a.date) && ValidDate(b.date)
    ensures LexLe(StartKey(a), StartKey(b)) <==>
            MinuteNumber(a.date, a.time) * 60000 - MinuteNumber(b.date, b.time) * 60000 <= 0
  {
    StartKeyOrder(a, b);
    DayNumberOrder(a.date, b.date);
  }

  lemma NineBeforeTen(d: Date)
    ensures var nine := TeeTime("A", d, Clock(9, 0), 4, ["u1"], "u1");
            var ten := TeeTime("B", d, Clock(10, 0), 4, ["u2"], "u2");
            LexLess(StartKey(nine), StartKey(ten))
  {
    var nine := TeeTime("A", d, Clock(9, 0), 4, ["u1"], "u1");
    var ten := TeeTime("B", d, Clock(10, 0), 4, ["u2"], "u2");
    StartKeyOrder(ten, nine);
  }
}
