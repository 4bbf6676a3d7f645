/**
 * The card store (`DatabaseManager` in database/db_manager.py): the three
 * tables `cards`, `user_cards` and `spawned_cards` with their autoincrement
 * counters, and the operations that read and change them, each taken as one
 * atomic step.
 *
 * The first half states the tables as a value (`StoreState`) and every
 * operation as a function of the old state; the lemmas about those functions
 * are the claim protocol's guarantees. The class `CardStore` holds the tables
 * as fields and its methods are proved to move between states exactly as the
 * functions say.
 *
 * Timestamps (`datetime.now()`) are a caller-supplied `now` that never goes
 * below the store's `clock`, the last timestamp it recorded.
 */
module Store {
  import opened Wrappers
  import opened Cards

  /** The three strings `claim_card` returns. */
  const AlreadyClaimed: string := "already_claimed"
  const UserOwns: string := "user_owns"
  const ClaimSuccess: string := "success"

  datatype CardRow = CardRow(id: int, name: string, imagePath: string, createdAt: int)

  datatype OwnershipRow = OwnershipRow(userId: int, username: string, cardId: int, rarity: string, claimedAt: int)

  datatype SpawnRow = SpawnRow(
    id: int, cardId: int, rarity: string, spawnedAt: int,
    claimed: bool, claimedBy: Option<int>, claimedAt: Option<int>)

  /** The store's tables, the next autoincrement ids, and the last timestamp recorded. */
  datatype StoreState = StoreState(
    cards: seq<CardRow>, userCards: seq<OwnershipRow>, spawned: seq<SpawnRow>,
    nextCardId: int, nextSpawnId: int, clock: int)

  // ---------------------------------------------------------------------------
  // Invariants of the tables

  predicate CardIdsIncreasing(rows: seq<CardRow>, next: int) {
    && 1 <= next
    && (forall i :: 0 <= i < |rows| ==> 1 <= rows[i].id < next)
    && (forall i, j :: 0 <= i < j < |rows| ==> rows[i].id < rows[j].id)
  }

  predicate SpawnIdsIncreasing(rows: seq<SpawnRow>, next: int) {
    && 1 <= next
    && (forall i :: 0 <= i < |rows| ==> 1 <= rows[i].id < next)
    && (forall i, j :: 0 <= i < j < |rows| ==> rows[i].id < rows[j].id)
  }

  /** A spawn row records a claimer and a claim time exactly when it is claimed. */
  predicate ClaimFieldsAgree(row: SpawnRow) {
    row.claimed == row.claimedBy.Some? && row.claimed == row.claimedAt.Some?
  }

  predicate AllClaimFieldsAgree(rows: seq<SpawnRow>) {
    forall i :: 0 <= i < |rows| ==> ClaimFieldsAgree(rows[i])
  }

  /** Some `user_cards` row holds (userId, cardId, rarity): the `SELECT 1` of `claim_card`. */
  predicate Owns(userCards: seq<OwnershipRow>, userId: int, cardId: int, rarity: string) {
    exists k :: 0 <= k < |userCards| && userCards[k].userId == userId
      && userCards[k].cardId == cardId && userCards[k].rarity == rarity
  }

  /** No user holds two rows with the same (card_id, rarity). */
  predicate NoDuplicateOwnership(userCards: seq<OwnershipRow>) {
    forall i, j :: 0 <= i < j < |userCards| ==>
      !(userCards[i].userId == userCards[j].userId && userCards[i].cardId == userCards[j].cardId
        && userCards[i].rarity == userCards[j].rarity)
  }

  predicate ClaimTimesOrdered(userCards: seq<OwnershipRow>, clock: int) {
    && (forall i, j :: 0 <= i < j < |userCards| ==> userCards[i].claimedAt <= userCards[j].claimedAt)
    && (forall i :: 0 <= i < |userCards| ==> userCards[i].claimedAt <= clock)
  }

  /** Every claimed spawn row has the ownership row its claim created. */
  predicate ClaimsRecorded(s: StoreState) {
    forall i :: 0 <= i < |s.spawned| && s.spawned[i].claimed ==>
      s.spawned[i].claimedBy.Some?
      && Owns(s.userCards, s.spawned[i].claimedBy.value, s.spawned[i].cardId, s.spawned[i].rarity)
  }

  /** No two claimed spawn rows were won by the same user for the same (card_id, rarity). */
  predicate ClaimsDistinct(rows: seq<SpawnRow>) {
    forall i, j :: 0 <= i < j < |rows| && rows[i].claimed && rows[j].claimed ==>
      !(rows[i].claimedBy == rows[j].claimedBy && rows[i].cardId == rows[j].cardId && rows[i].rarity == rows[j].rarity)
  }

  function ClaimedCount(rows: seq<SpawnRow>): nat {
    if rows == [] then 0 else (if rows[0].claimed then 1 else 0) + ClaimedCount(rows[1..])
  }

  predicate ValidState(s: StoreState) {
    && CardIdsIncreasing(s.cards, s.nextCardId)
    && SpawnIdsIncreasing(s.spawned, s.nextSpawnId)
    && AllClaimFieldsAgree(s.spawned)
    && NoDuplicateOwnership(s.userCards)
    && ClaimTimesOrdered(s.userCards, s.clock)
    && ClaimsRecorded(s)
    && ClaimsDistinct(s.spawned)
    && ClaimedCount(s.spawned) == |s.userCards|
  }

  /** The tables of a freshly initialised database. */
  function Empty(start: int): StoreState {
    StoreState([], [], [], 1, 1, start)
  }

  lemma EmptyIsValid(start: int)
    ensures ValidState(Empty(start))
  {
  }

  // ---------------------------------------------------------------------------
  // Lookups by primary key

  /** The position of the spawn row with this id (`WHERE id = ?`). */
  function FindSpawn(rows: seq<SpawnRow>, id: int): (k: Option<nat>)
    ensures k.Some? ==> k.value < |rows| && rows[k.value].id == id
    ensures k.None? ==> forall i :: 0 <= i < |rows| ==> rows[i].id != id
  {
    if rows == [] then None
    else if rows[|rows| - 1].id == id then Some(|rows| - 1)
    else FindSpawn(rows[..|rows| - 1], id)
  }

  /** The card row with this id (`WHERE id = ?`, or the join `ON uc.card_id = c.id`). */
  function FindCard(rows: seq<CardRow>, id: int): (r: Option<CardRow>)
    ensures r.Some? ==> r.value in rows && r.value.id == id
    ensures r.None? ==> forall i :: 0 <= i < |rows| ==> rows[i].id != id
  {
    if rows == [] then None
    else if rows[|rows| - 1].id == id then Some(rows[|rows| - 1])
    else FindCard(rows[..|rows| - 1], id)
  }

  /** With unique ids, the row found is the one row with that id. */
  lemma FindSpawnUnique(rows: seq<SpawnRow>, next: int, id: int, i: nat)
    requires SpawnIdsIncreasing(rows, next)
    requires i < |rows| && rows[i].id == id
    ensures FindSpawn(rows, id) == Some(i)
  {
    assert FindSpawn(rows, id).Some?;
  }

  /** FindSpawn looks only at the ids. */
  lemma {:induction false} FindSpawnSameIds(a: seq<SpawnRow>, b: seq<SpawnRow>, id: int)
    requires |a| == |b|
    requires forall i :: 0 <= i < |a| ==> a[i].id == b[i].id
    ensures FindSpawn(a, id) == FindSpawn(b, id)
  {
    if a != [] {
      FindSpawnSameIds(a[..|a| - 1], b[..|b| - 1], id);
    }
  }

  // ---------------------------------------------------------------------------
  // claim_card

  /** The string `claim_card` returns. An unknown spawn id answers like a claimed one. */
  function ClaimResult(s: StoreState, spawnId: int, userId: int): string {
    match FindSpawn(s.spawned, spawnId)
    case None => AlreadyClaimed
    case Some(k) =>
      if s.spawned[k].claimed then AlreadyClaimed
      else if Owns(s.userCards, userId, s.spawned[k].cardId, s.spawned[k].rarity) then UserOwns
      else ClaimSuccess
  }

  /** The tables after `claim_card`: on success the spawn row is marked and one ownership row appended. */
  function AfterClaim(s: StoreState, spawnId: int, userId: int, username: string, now: int): StoreState {
    if ClaimResult(s, spawnId, userId) != ClaimSuccess then s
    else
      var k := FindSpawn(s.spawned, spawnId).value;
      var row := s.spawned[k];
      s.(spawned := s.spawned[k := row.(claimed := true, claimedBy := Some(userId), claimedAt := Some(now))],
         userCards := s.userCards + [OwnershipRow(userId, username, row.cardId, row.rarity, now)],
         clock := now)
  }

  /** An unknown or already claimed spawn id yields 'already_claimed' and changes nothing. */
  lemma ClaimMissingOrClaimed(s: StoreState, spawnId: int, userId: int, username: string, now: int)
    requires forall i :: 0 <= i < |s.spawned| && s.spawned[i].id == spawnId ==> s.spawned[i].claimed
    ensures ClaimResult(s, spawnId, userId) == AlreadyClaimed
    ensures AfterClaim(s, spawnId, userId, username, now) == s
  {
  }

  /**
   * If the user already holds the spawn's (card_id, rarity), the answer is
   * 'user_owns', nothing changes, and any user without that pair can still
   * claim the spawn.
   */
  lemma ClaimUserOwnsKeepsOpen(s: StoreState, spawnId: int, userId: int, username: string, now: int, other: int)
    requires ValidState(s)
    requires exists i :: 0 <= i < |s.spawned| && s.spawned[i].id == spawnId && !s.spawned[i].claimed
                      && Owns(s.userCards, userId, s.spawned[i].cardId, s.spawned[i].rarity)
                      && !Owns(s.userCards, other, s.spawned[i].cardId, s.spawned[i].rarity)
    ensures ClaimResult(s, spawnId, userId) == UserOwns
    ensures AfterClaim(s, spawnId, userId, username, now) == s
    ensures ClaimResult(s, spawnId, other) == ClaimSuccess
  {
    var i :| 0 <= i < |s.spawned| && s.spawned[i].id == spawnId && !s.spawned[i].claimed
      && Owns(s.userCards, userId, s.spawned[i].cardId, s.spawned[i].rarity)
      && !Owns(s.userCards, other, s.spawned[i].cardId, s.spawned[i].rarity);
    FindSpawnUnique(s.spawned, s.nextSpawnId, spawnId, i);
  }

  /**
   * A successful claim marks exactly the spawn row claimed by the user at
   * `now`, appends exactly one ownership row with the spawn's card and
   * rarity, and changes nothing else.
   */
  lemma ClaimSuccessEffect(s: StoreState, spawnId: int, userId: int, username: string, now: int)
    requires ClaimResult(s, spawnId, userId) == ClaimSuccess
    ensures var t := AfterClaim(s, spawnId, userId, username, now);
      exists k :: 0 <= k < |s.spawned| && s.spawned[k].id == spawnId && !s.spawned[k].claimed
        && !Owns(s.userCards, userId, s.spawned[k].cardId, s.spawned[k].rarity)
        && t.spawned == s.spawned[k := s.spawned[k].(claimed := true, claimedBy := Some(userId), claimedAt := Some(now))]
        && t.userCards == s.userCards + [OwnershipRow(userId, username, s.spawned[k].cardId, s.spawned[k].rarity, now)]
    ensures var t := AfterClaim(s, spawnId, userId, username, now);
      t.cards == s.cards && t.nextCardId == s.nextCardId && t.nextSpawnId == s.nextSpawnId
  {
    var k := FindSpawn(s.spawned, spawnId).value;
    assert s.spawned[k].id == spawnId;
  }

  lemma {:induction false} ClaimedCountAppend(a: seq<SpawnRow>, b: seq<SpawnRow>)
    ensures ClaimedCount(a + b) == ClaimedCount(a) + ClaimedCount(b)
  {
    if a != [] {
      assert (a + b)[1..] == a[1..] + b;
      ClaimedCountAppend(a[1..], b);
    } else {
      assert a + b == b;
    }
  }

  lemma {:induction false} ClaimedCountMark(rows: seq<SpawnRow>, k: nat, row: SpawnRow)
    requires k < |rows| && !rows[k].claimed && row.claimed
    ensures ClaimedCount(rows[k := row]) == ClaimedCount(rows) + 1
  {
    if k > 0 {
      assert rows[k := row][1..] == rows[1..][k - 1 := row];
      ClaimedCountMark(rows[1..], k - 1, row);
    } else {
      assert rows[k := row][1..] == rows[1..];
    }
  }

  lemma OwnsAppend(userCards: seq<OwnershipRow>, extra: OwnershipRow, userId: int, cardId: int, rarity: string)
    requires Owns(userCards, userId, cardId, rarity)
    ensures Owns(userCards + [extra], userId, cardId, rarity)
  {
    var k :| 0 <= k < |userCards| && userCards[k].userId == userId
      && userCards[k].cardId == cardId && userCards[k].rarity == rarity;
    assert (userCards + [extra])[k] == userCards[k];
  }

  /** A claim keeps every invariant, in particular that no user owns a (card, rarity) pair twice. */
  lemma ClaimPreservesValid(s: StoreState, spawnId: int, userId: int, username: string, now: int)
    requires ValidState(s) && now >= s.clock
    ensures ValidState(AfterClaim(s, spawnId, userId, username, now))
  {
    if ClaimResult(s, spawnId, userId) == ClaimSuccess {
      var t := AfterClaim(s, spawnId, userId, username, now);
      var k := FindSpawn(s.spawned, spawnId).value;
      var row := s.spawned[k];
      var marked := row.(claimed := true, claimedBy := Some(userId), claimedAt := Some(now));
      var added := OwnershipRow(userId, username, row.cardId, row.rarity, now);
      assert t.spawned == s.spawned[k := marked];
      assert t.userCards == s.userCards + [added];
      ClaimedCountMark(s.spawned, k, marked);
      ClaimKeepsDistinct(s, k, marked);
      AppendOwnershipUnique(s.userCards, added);
      ClaimKeepsRecorded(s, k, marked, added);
      MarkKeepsRows(s.spawned, s.nextSpawnId, k, marked);
      AppendKeepsTimes(s.userCards, s.clock, added);
    }
  }

  /** Marking one row keeps the ids and the claim fields of the spawn table in order. */
  lemma MarkKeepsRows(rows: seq<SpawnRow>, next: int, k: nat, marked: SpawnRow)
    requires SpawnIdsIncreasing(rows, next) && AllClaimFieldsAgree(rows)
    requires k < |rows| && marked.id == rows[k].id && ClaimFieldsAgree(marked)
    ensures SpawnIdsIncreasing(rows[k := marked], next)
    ensures AllClaimFieldsAgree(rows[k := marked])
  {
  }

  /** A row claimed at or after the clock keeps the claim times in order. */
  lemma AppendKeepsTimes(userCards: seq<OwnershipRow>, clock: int, added: OwnershipRow)
    requires ClaimTimesOrdered(userCards, clock) && added.claimedAt >= clock
    ensures ClaimTimesOrdered(userCards + [added], added.claimedAt)
  {
  }

  /** Appending a row for a pair the user does not own keeps ownership unique. */
  lemma AppendOwnershipUnique(userCards: seq<OwnershipRow>, added: OwnershipRow)
    requires NoDuplicateOwnership(userCards)
    requires !Owns(userCards, added.userId, added.cardId, added.rarity)
    ensures NoDuplicateOwnership(userCards + [added])
  {
    var all := userCards + [added];
    forall i, j | 0 <= i < j < |all|
      ensures !(all[i].userId == all[j].userId && all[i].cardId == all[j].cardId && all[i].rarity == all[j].rarity)
    {
      assert all[i] == userCards[i];
      if j < |userCards| {
        assert all[j] == userCards[j];
      }
    }
  }

  /** The marked row is recorded by the appended row, and every other claim by the row it had. */
  lemma ClaimKeepsRecorded(s: StoreState, k: nat, marked: SpawnRow, added: OwnershipRow)
    requires ClaimsRecorded(s) && k < |s.spawned|
    requires marked.claimedBy == Some(added.userId)
    requires marked.cardId == added.cardId && marked.rarity == added.rarity
    ensures ClaimsRecorded(s.(spawned := s.spawned[k := marked], userCards := s.userCards + [added]))
  {
    var rows, owned := s.spawned[k := marked], s.userCards + [added];
    forall i | 0 <= i < |rows| && rows[i].claimed
      ensures rows[i].claimedBy.Some? && Owns(owned, rows[i].claimedBy.value, rows[i].cardId, rows[i].rarity)
    {
      if i == k {
        assert owned[|s.userCards|] == added;
      } else {
        OwnsAppend(s.userCards, added, s.spawned[i].claimedBy.value, s.spawned[i].cardId, s.spawned[i].rarity);
      }
    }
  }

  /**
   * Marking an open row claimed by a user who does not own its pair keeps
   * claimed rows distinct: an earlier claimed row with the same user and
   * pair would have recorded that ownership.
   */
  lemma ClaimKeepsDistinct(s: StoreState, k: nat, marked: SpawnRow)
    requires ClaimsRecorded(s) && ClaimsDistinct(s.spawned)
    requires k < |s.spawned| && !s.spawned[k].claimed
    requires marked.claimed && marked.claimedBy.Some?
    requires marked.cardId == s.spawned[k].cardId && marked.rarity == s.spawned[k].rarity
    requires !Owns(s.userCards, marked.claimedBy.value, marked.cardId, marked.rarity)
    ensures ClaimsDistinct(s.spawned[k := marked])
  {
    var t := s.spawned[k := marked];
    forall i, j | 0 <= i < j < |t| && t[i].claimed && t[j].claimed
      ensures !(t[i].claimedBy == t[j].claimedBy && t[i].cardId == t[j].cardId && t[i].rarity == t[j].rarity)
    {
      if i == k {
        assert s.spawned[j].claimed;
      } else if j == k {
        assert s.spawned[i].claimed;
      }
    }
  }

  /** Once a spawn is claimed, every further claim on it, by anyone, is refused and changes nothing. */
  lemma SecondClaimRefused(s: StoreState, spawnId: int, userId: int, username: string, now: int,
                           other: int, otherName: string, later: int)
    requires ClaimResult(s, spawnId, userId) == ClaimSuccess
    ensures var t := AfterClaim(s, spawnId, userId, username, now);
      ClaimResult(t, spawnId, other) == AlreadyClaimed
      && AfterClaim(t, spawnId, other, otherName, later) == t
  {
    var t := AfterClaim(s, spawnId, userId, username, now);
    var k := FindSpawn(s.spawned, spawnId).value;
    FindSpawnSameIds(s.spawned, t.spawned, spawnId);
    assert t.spawned[k].claimed;
  }

  /**
   * After a user wins a (card, rarity) pair, every other open spawn of that
   * same pair answers that user with 'user_owns'.
   */
  lemma OwnerRefusedSamePair(s: StoreState, spawnId: int, userId: int, username: string, now: int, otherSpawn: int)
    requires ValidState(s)
    requires ClaimResult(s, spawnId, userId) == ClaimSuccess
    requires exists i, j :: 0 <= i < |s.spawned| && 0 <= j < |s.spawned| && s.spawned[i].id == spawnId
                         && s.spawned[j].id == otherSpawn && !s.spawned[j].claimed && i != j
                         && s.spawned[j].cardId == s.spawned[i].cardId && s.spawned[j].rarity == s.spawned[i].rarity
    ensures ClaimResult(AfterClaim(s, spawnId, userId, username, now), otherSpawn, userId) == UserOwns
  {
    var i, j :| 0 <= i < |s.spawned| && 0 <= j < |s.spawned| && s.spawned[i].id == spawnId
      && s.spawned[j].id == otherSpawn && !s.spawned[j].claimed && i != j
      && s.spawned[j].cardId == s.spawned[i].cardId && s.spawned[j].rarity == s.spawned[i].rarity;
    var t := AfterClaim(s, spawnId, userId, username, now);
    FindSpawnUnique(s.spawned, s.nextSpawnId, spawnId, i);
    FindSpawnUnique(s.spawned, s.nextSpawnId, otherSpawn, j);
    FindSpawnSameIds(s.spawned, t.spawned, otherSpawn);
    var added := OwnershipRow(userId, username, s.spawned[i].cardId, s.spawned[i].rarity, now);
    assert t.userCards[|s.userCards|] == added;
    assert Owns(t.userCards, userId, t.spawned[j].cardId, t.spawned[j].rarity);
  }

  /** A claimed spawn row stays claimed, by the same user, through any claim. */
  lemma ClaimKeepsClaimed(s: StoreState, spawnId: int, userId: int, username: string, now: int, i: nat)
    requires i < |s.spawned| && s.spawned[i].claimed
    ensures var t := AfterClaim(s, spawnId, userId, username, now);
      i < |t.spawned| && t.spawned[i] == s.spawned[i]
  {
  }

  // ---------------------------------------------------------------------------
  // create_spawn_session

  /** The rows `create_spawn_session` inserts, one per card, with ids counting up from `firstId`. */
  function SessionRows(cards: seq<ArtCard>, firstId: int, now: int): (rows: seq<SpawnRow>)
    ensures |rows| == |cards|
  {
    seq(|cards|, i requires 0 <= i < |cards| => SpawnRow(firstId + i, cards[i].id, cards[i].rarity, now, false, None, None))
  }

  /** The cards `create_spawn_session` returns: the input, each with its new spawn id. */
  function AnnotateSession(cards: seq<ArtCard>, firstId: int): (out: seq<SpawnedArtCard>)
    ensures |out| == |cards|
  {
    seq(|cards|, i requires 0 <= i < |cards| => SpawnedArtCard(cards[i], firstId + i))
  }

  function AfterSpawn(s: StoreState, cards: seq<ArtCard>, now: int): StoreState {
    s.(spawned := s.spawned + SessionRows(cards, s.nextSpawnId, now),
       nextSpawnId := s.nextSpawnId + |cards|, clock := now)
  }

  /**
   * A session returns the input cards in order with distinct, increasing
   * spawn ids unused so far, adds one open row per card carrying that
   * card's id and rarity, and leaves the other tables as they were.
   */
  lemma SpawnSessionShape(s: StoreState, cards: seq<ArtCard>, now: int)
    requires ValidState(s)
    ensures var out := AnnotateSession(cards, s.nextSpawnId);
      && |out| == |cards|
      && (forall i :: 0 <= i < |out| ==> out[i].card == cards[i])
      && (forall i, j :: 0 <= i < j < |out| ==> out[i].spawnId < out[j].spawnId)
      && (forall i, k :: 0 <= i < |out| && 0 <= k < |s.spawned| ==> out[i].spawnId != s.spawned[k].id)
    ensures var t := AfterSpawn(s, cards, now);
      && |t.spawned| == |s.spawned| + |cards|
      && t.spawned[..|s.spawned|] == s.spawned
      && (forall i :: 0 <= i < |cards| ==>
            var row := t.spawned[|s.spawned| + i];
            row.id == AnnotateSession(cards, s.nextSpawnId)[i].spawnId && row.cardId == cards[i].id
            && row.rarity == cards[i].rarity && !row.claimed)
      && t.userCards == s.userCards && t.cards == s.cards
  {
    var t := AfterSpawn(s, cards, now);
    assert t.spawned[..|s.spawned|] == s.spawned;
  }

  lemma SpawnPreservesValid(s: StoreState, cards: seq<ArtCard>, now: int)
    requires ValidState(s) && now >= s.clock
    ensures ValidState(AfterSpawn(s, cards, now))
  {
    var t := AfterSpawn(s, cards, now);
    var added := SessionRows(cards, s.nextSpawnId, now);
    assert t.spawned == s.spawned + added;
    ClaimedCountAppend(s.spawned, added);
    OpenRowsUnclaimed(added);
    AppendOpenRows(s, added);
    AppendSessionRows(s.spawned, s.nextSpawnId, cards, now);
  }

  /** Session rows continue the ids from the counter, open and without a claimant. */
  lemma AppendSessionRows(rows: seq<SpawnRow>, next: int, cards: seq<ArtCard>, now: int)
    requires SpawnIdsIncreasing(rows, next)
    requires AllClaimFieldsAgree(rows)
    ensures var all := rows + SessionRows(cards, next, now);
      && SpawnIdsIncreasing(all, next + |cards|)
      && AllClaimFieldsAgree(all)
  {
    var added := SessionRows(cards, next, now);
    var all := rows + added;
    forall i, j | 0 <= i < j < |all| ensures all[i].id < all[j].id {
      if j >= |rows| {
        assert all[j] == added[j - |rows|];
        if i >= |rows| {
          assert all[i] == added[i - |rows|];
        }
      }
    }
    forall i | 0 <= i < |all| ensures 1 <= all[i].id < next + |cards| && ClaimFieldsAgree(all[i]) {
      if i >= |rows| {
        assert all[i] == added[i - |rows|];
      }
    }
  }

  /** Appending unclaimed rows adds no claim, so the claims stay recorded and distinct. */
  lemma AppendOpenRows(s: StoreState, added: seq<SpawnRow>)
    requires ClaimsRecorded(s) && ClaimsDistinct(s.spawned)
    requires forall i :: 0 <= i < |added| ==> !added[i].claimed
    ensures ClaimsRecorded(s.(spawned := s.spawned + added))
    ensures ClaimsDistinct(s.spawned + added)
  {
    var rows := s.spawned + added;
    forall i | 0 <= i < |rows| && rows[i].claimed
      ensures rows[i].claimedBy.Some?
        && Owns(s.userCards, rows[i].claimedBy.value, rows[i].cardId, rows[i].rarity)
    {
      assert i < |s.spawned|;
      assert rows[i] == s.spawned[i];
    }
    forall i, j | 0 <= i < j < |rows| && rows[i].claimed && rows[j].claimed
      ensures !(rows[i].claimedBy == rows[j].claimedBy && rows[i].cardId == rows[j].cardId
                && rows[i].rarity == rows[j].rarity)
    {
      assert j < |s.spawned|;
      assert rows[i] == s.spawned[i] && rows[j] == s.spawned[j];
    }
  }

  lemma {:induction false} OpenRowsUnclaimed(rows: seq<SpawnRow>)
    requires forall i :: 0 <= i < |rows| ==> !rows[i].claimed
    ensures ClaimedCount(rows) == 0
  {
    if rows != [] {
      OpenRowsUnclaimed(rows[1..]);
    }
  }

  /** Opening a session does not touch any existing spawn row, so claims stay claimed. */
  lemma SpawnKeepsRows(s: StoreState, cards: seq<ArtCard>, now: int, i: nat)
    requires i < |s.spawned|
    ensures AfterSpawn(s, cards, now).spawned[i] == s.spawned[i]
  {
  }

  // ---------------------------------------------------------------------------
  // add_card

  function AfterAddCard(s: StoreState, name: string, imagePath: string, now: int): StoreState {
    s.(cards := s.cards + [CardRow(s.nextCardId, name, imagePath, now)],
       nextCardId := s.nextCardId + 1, clock := now)
  }

  lemma AddCardPreservesValid(s: StoreState, name: string, imagePath: string, now: int)
    requires ValidState(s) && now >= s.clock
    ensures ValidState(AfterAddCard(s, name, imagePath, now))
  {
  }

  // ---------------------------------------------------------------------------
  // The read-only queries

  /** The `get_user_cards` query: the user's rows joined to their card, newest claim first. */
  function UserCollection(userCards: seq<OwnershipRow>, cards: seq<CardRow>, userId: int): seq<OwnedCard> {
    if userCards == [] then []
    else
      var last := userCards[|userCards| - 1];
      var older := UserCollection(userCards[..|userCards| - 1], cards, userId);
      match FindCard(cards, last.cardId)
      case Some(card) =>
        if last.userId == userId then [OwnedCard(card.name, last.rarity, last.claimedAt)] + older else older
      case None => older
  }

  /** An entry is listed exactly when it is one of the user's rows whose card exists. */
  lemma {:induction false} UserCollectionMembers(userCards: seq<OwnershipRow>, cards: seq<CardRow>, userId: int, x: OwnedCard)
    ensures x in UserCollection(userCards, cards, userId) <==>
      exists j :: 0 <= j < |userCards| && userCards[j].userId == userId && FindCard(cards, userCards[j].cardId).Some?
        && x == OwnedCard(FindCard(cards, userCards[j].cardId).value.name, userCards[j].rarity, userCards[j].claimedAt)
  {
    if userCards != [] {
      var n := |userCards| - 1;
      var prefix := userCards[..n];
      UserCollectionMembers(prefix, cards, userId, x);
      assert forall j :: 0 <= j < n ==> prefix[j] == userCards[j];
    }
  }

  /** An ownership row that the `get_user_cards` join keeps for this user. */
  predicate Joins(row: OwnershipRow, cards: seq<CardRow>, userId: int) {
    row.userId == userId && FindCard(cards, row.cardId).Some?
  }

  /** The entry the join makes of a row it keeps. */
  function Entry(row: OwnershipRow, cards: seq<CardRow>): OwnedCard
    requires FindCard(cards, row.cardId).Some?
  {
    OwnedCard(FindCard(cards, row.cardId).value.name, row.rarity, row.claimedAt)
  }

  /** Which rows of the table the join keeps for this user. */
  function JoinMask(userCards: seq<OwnershipRow>, cards: seq<CardRow>, userId: int): (keep: seq<bool>)
    ensures |keep| == |userCards|
  {
    seq(|userCards|, j requires 0 <= j < |userCards| => Joins(userCards[j], cards, userId))
  }

  /** The positions below `n` that `keep` marks, last first. */
  function MarkedPositions(keep: seq<bool>, n: nat): (idx: seq<nat>)
    requires n <= |keep|
    ensures forall i :: 0 <= i < |idx| ==> idx[i] < n && keep[idx[i]]
  {
    if n == 0 then []
    else
      var older := MarkedPositions(keep, n - 1);
      if keep[n - 1] then [n - 1] + older else older
  }

  /** The marked positions are listed newest first, each once, and none is missed. */
  lemma MarkedPositionsComplete(keep: seq<bool>, n: nat)
    requires n <= |keep|
    ensures var idx := MarkedPositions(keep, n);
      && Decreasing(idx)
      && forall j :: 0 <= j < n && keep[j] ==> j in idx
  {
    MarkedPositionsDecreasing(keep, n);
    MarkedPositionsCover(keep, n);
  }

  lemma {:induction false} MarkedPositionsDecreasing(keep: seq<bool>, n: nat)
    requires n <= |keep|
    ensures Decreasing(MarkedPositions(keep, n))
  {
    if n > 0 {
      MarkedPositionsDecreasing(keep, n - 1);
      var older := MarkedPositions(keep, n - 1);
      var idx := MarkedPositions(keep, n);
      if keep[n - 1] {
        assert idx == [n - 1] + older;
        forall i, k | 0 <= i < k < |idx| ensures idx[i] > idx[k] {
          assert idx[k] == older[k - 1];
          if i > 0 {
            assert idx[i] == older[i - 1];
          }
        }
      } else {
        assert idx == older;
      }
    }
  }

  lemma {:induction false} MarkedPositionsCover(keep: seq<bool>, n: nat)
    requires n <= |keep|
    ensures forall j :: 0 <= j < n && keep[j] ==> j in MarkedPositions(keep, n)
  {
    if n > 0 {
      MarkedPositionsCover(keep, n - 1);
      var older := MarkedPositions(keep, n - 1);
      var idx := MarkedPositions(keep, n);
      if keep[n - 1] {
        assert idx == [n - 1] + older;
        forall j | 0 <= j < n && keep[j] ensures j in idx {
          if j < n - 1 {
            assert j in older;
          }
        }
      } else {
        assert idx == older;
      }
    }
  }

  /** The positions of the rows the join keeps. */
  function JoinedPositions(userCards: seq<OwnershipRow>, cards: seq<CardRow>, userId: int, n: nat): (idx: seq<nat>)
    requires n <= |userCards|
    ensures forall i :: 0 <= i < |idx| ==> idx[i] < n && Joins(userCards[idx[i]], cards, userId)
  {
    MarkedPositions(JoinMask(userCards, cards, userId), n)
  }

  /**
   * Each row the join keeps gives exactly one entry, so the collection has
   * one entry per joining row, copies included, newest row first.
   */
  lemma UserCollectionRows(userCards: seq<OwnershipRow>, cards: seq<CardRow>, userId: int)
    ensures var idx := JoinedPositions(userCards, cards, userId, |userCards|);
      var r := UserCollection(userCards, cards, userId);
      |r| == |idx| && forall i :: 0 <= i < |r| ==> r[i] == Entry(userCards[idx[i]], cards)
  {
    UserCollectionPrefixRows(userCards, cards, userId, |userCards|);
    assert userCards[..|userCards|] == userCards;
  }

  lemma {:induction false} UserCollectionPrefixRows(userCards: seq<OwnershipRow>, cards: seq<CardRow>, userId: int, n: nat)
    requires n <= |userCards|
    ensures var idx := JoinedPositions(userCards, cards, userId, n);
      var r := UserCollection(userCards[..n], cards, userId);
      |r| == |idx| && forall i :: 0 <= i < |r| ==> r[i] == Entry(userCards[idx[i]], cards)
  {
    if n > 0 {
      UserCollectionPrefixRows(userCards, cards, userId, n - 1);
      UserCollectionStep(userCards, cards, userId, n);
      var older := JoinedPositions(userCards, cards, userId, n - 1);
      var r, rest := UserCollection(userCards[..n], cards, userId), UserCollection(userCards[..n - 1], cards, userId);
      var idx := JoinedPositions(userCards, cards, userId, n);
      if Joins(userCards[n - 1], cards, userId) {
        assert idx == [n - 1] + older;
        assert r == [Entry(userCards[n - 1], cards)] + rest;
        forall i | 0 < i < |r| ensures r[i] == Entry(userCards[idx[i]], cards) {
          assert r[i] == rest[i - 1] && idx[i] == older[i - 1];
        }
      } else {
        assert idx == older && r == rest;
      }
    }
  }

  /** One step of the join: the row at position n - 1 adds its entry in front, or nothing. */
  lemma UserCollectionStep(userCards: seq<OwnershipRow>, cards: seq<CardRow>, userId: int, n: nat)
    requires 0 < n <= |userCards|
    ensures UserCollection(userCards[..n], cards, userId)
         == (if Joins(userCards[n - 1], cards, userId) then [Entry(userCards[n - 1], cards)] else [])
            + UserCollection(userCards[..n - 1], cards, userId)
  {
    var prefix := userCards[..n];
    assert prefix[..n - 1] == userCards[..n - 1];
    assert prefix[n - 1] == userCards[n - 1];
  }

  /** The number of entries is the number of the user's rows whose card is in the catalogue. */
  lemma UserCollectionCount(userCards: seq<OwnershipRow>, cards: seq<CardRow>, userId: int)
    ensures |UserCollection(userCards, cards, userId)|
         == |set j | 0 <= j < |userCards| && Joins(userCards[j], cards, userId)|
  {
    var idx := JoinedPositions(userCards, cards, userId, |userCards|);
    UserCollectionRows(userCards, cards, userId);
    MarkedPositionsComplete(JoinMask(userCards, cards, userId), |userCards|);
    assert (set j | 0 <= j < |userCards| && Joins(userCards[j], cards, userId)) == Elements(idx);
    DecreasingDistinct(idx);
  }

  predicate Decreasing(idx: seq<nat>) {
    forall i, k :: 0 <= i < k < |idx| ==> idx[i] > idx[k]
  }

  function Elements(idx: seq<nat>): set<nat> {
    set i | i in idx
  }

  /** A strictly decreasing sequence has as many distinct elements as positions. */
  lemma {:induction false} DecreasingDistinct(idx: seq<nat>)
    requires Decreasing(idx)
    ensures |Elements(idx)| == |idx|
  {
    if idx != [] {
      var rest := idx[1..];
      assert Decreasing(rest) by {
        forall i, k | 0 <= i < k < |rest| ensures rest[i] > rest[k] {
          assert rest[i] == idx[i + 1] && rest[k] == idx[k + 1];
        }
      }
      DecreasingDistinct(rest);
      assert idx[0] !in rest by {
        forall k | 0 <= k < |rest| ensures rest[k] != idx[0] {
          assert rest[k] == idx[k + 1];
        }
      }
      assert Elements(idx) == {idx[0]} + Elements(rest) by {
        assert idx == [idx[0]] + rest;
      }
    }
  }

  predicate NewestFirst(rows: seq<OwnedCard>) {
    forall i, j :: 0 <= i < j < |rows| ==> rows[i].claimedAt >= rows[j].claimedAt
  }

  /** With claim times in order, the listing is ordered by claim time, newest first. */
  lemma {:induction false} UserCollectionNewestFirst(userCards: seq<OwnershipRow>, cards: seq<CardRow>, userId: int, clock: int)
    requires ClaimTimesOrdered(userCards, clock)
    ensures NewestFirst(UserCollection(userCards, cards, userId))
  {
    if userCards != [] {
      var n := |userCards| - 1;
      var prefix := userCards[..n];
      assert ClaimTimesOrdered(prefix, clock);
      UserCollectionNewestFirst(prefix, cards, userId, clock);
      var older := UserCollection(prefix, cards, userId);
      forall x | x in older ensures x.claimedAt <= userCards[n].claimedAt {
        UserCollectionMembers(prefix, cards, userId, x);
      }
      var r := UserCollection(userCards, cards, userId);
      if r != older {
        var x := r[0];
        assert r == [x] + older;
        assert x.claimedAt == userCards[n].claimedAt;
        forall i, j | 0 <= i < j < |r| ensures r[i].claimedAt >= r[j].claimedAt {
          assert r[j] == older[j - 1];
          assert r[j] in older;
          if i > 0 {
            assert r[i] == older[i - 1];
          } else {
            assert r[j].claimedAt <= userCards[n].claimedAt;
          }
        }
      }
    }
  }

  /** The `get_all_claimed_cards` query: one (card_id, rarity) pair per ownership row. */
  function ClaimedPairs(userCards: seq<OwnershipRow>): (pairs: seq<(int, string)>)
    ensures |pairs| == |userCards|
  {
    seq(|userCards|, i requires 0 <= i < |userCards| => (userCards[i].cardId, userCards[i].rarity))
  }

  /** The keys the connection URL reads, in the order the f-string reads them. */
  const ConnectionKeys: seq<string> := ["user", "password", "host", "port", "database"]

  /** `get_mysql_connection_string`: the URL, or the first key the f-string finds missing. */
  function MysqlConnectionString(config: map<string, string>): (r: Result<string, string>)
    ensures r.Failure? <==> exists k :: k in ConnectionKeys && k !in config
    ensures r.Failure? ==>
              exists i :: 0 <= i < |ConnectionKeys| && ConnectionKeys[i] == r.error && r.error !in config
                && forall j :: 0 <= j < i ==> ConnectionKeys[j] in config
    ensures r.Success? ==>
              r.value == "mysql+pymysql://" + config["user"] + ":" + config["password"]
                         + "@" + config["host"] + ":" + config["port"] + "/" + config["database"]
  {
    if "user" !in config then assert ConnectionKeys[0] == "user"; Failure("user")
    else if "password" !in config then assert ConnectionKeys[1] == "password"; Failure("password")
    else if "host" !in config then assert ConnectionKeys[2] == "host"; Failure("host")
    else if "port" !in config then assert ConnectionKeys[3] == "port"; Failure("port")
    else if "database" !in config then assert ConnectionKeys[4] == "database"; Failure("database")
    else Success("mysql+pymysql://" + config["user"] + ":" + config["password"]
      + "@" + config["host"] + ":" + config["port"] + "/" + config["database"])
  }

  // ---------------------------------------------------------------------------
  // The store object

  class CardStore {
    var cards: seq<CardRow>
    var userCards: seq<OwnershipRow>
    var spawnedCards: seq<SpawnRow>
    var nextCardId: int
    var nextSpawnId: int
    var clock: int

    function State(): StoreState
      reads this
    {
      StoreState(cards, userCards, spawnedCards, nextCardId, nextSpawnId, clock)
    }

    predicate Valid()
      reads this
    {
      ValidState(State())
    }

    /** The store after `initialize_database` on a new database file. */
    constructor (start: int)
      ensures Valid() && State() == Empty(start)
    {
      cards, userCards, spawnedCards := [], [], [];
      nextCardId, nextSpawnId, clock := 1, 1, start;
    }

    method CreateSpawnSession(session: seq<ArtCard>, now: int) returns (updated: seq<SpawnedArtCard>)
      requires Valid() && now >= clock
      modifies this
      ensures Valid()
      ensures State() == AfterSpawn(old(State()), session, now)
      ensures updated == AnnotateSession(session, old(nextSpawnId))
    {
      ghost var before := spawnedCards;
      ghost var first := nextSpawnId;
      SpawnPreservesValid(State(), session, now);
      updated := [];
      var i := 0;
      while i < |session|
        invariant 0 <= i <= |session|
        invariant spawnedCards == before + SessionRows(session[..i], first, now)
        invariant nextSpawnId == first + i
        invariant updated == AnnotateSession(session[..i], first)
        invariant cards == old(cards) && userCards == old(userCards)
        invariant nextCardId == old(nextCardId) && clock == old(clock)
      {
        var card := session[i];
        var spawnId := nextSpawnId;
        spawnedCards := spawnedCards + [SpawnRow(spawnId, card.id, card.rarity, now, false, None, None)];
        nextSpawnId := nextSpawnId + 1;
        updated := updated + [SpawnedArtCard(card, spawnId)];
        assert session[..i + 1] == session[..i] + [card];
        assert SessionRows(session[..i + 1], first, now)
          == SessionRows(session[..i], first, now) + [SpawnRow(spawnId, card.id, card.rarity, now, false, None, None)];
        assert AnnotateSession(session[..i + 1], first) == AnnotateSession(session[..i], first) + [SpawnedArtCard(card, spawnId)];
        i := i + 1;
      }
      clock := now;
      assert session[..i] == session;
    }

    method ClaimCard(spawnId: int, userId: int, username: string, now: int) returns (r: string)
      requires Valid() && now >= clock
      modifies this
      ensures Valid()
      ensures r == ClaimResult(old(State()), spawnId, userId)
      ensures State() == AfterClaim(old(State()), spawnId, userId, username, now)
      ensures r in [AlreadyClaimed, UserOwns, ClaimSuccess]
      ensures r != ClaimSuccess ==> State() == old(State())
    {
      ClaimPreservesValid(State(), spawnId, userId, username, now);
      var found := FindSpawn(spawnedCards, spawnId);
      if found.None? || spawnedCards[found.value].claimed {
        return AlreadyClaimed;
      }
      var k := found.value;
      var row := spawnedCards[k];
      if Owns(userCards, userId, row.cardId, row.rarity) {
        return UserOwns;
      }
      spawnedCards := spawnedCards[k := row.(claimed := true, claimedBy := Some(userId), claimedAt := Some(now))];
      userCards := userCards + [OwnershipRow(userId, username, row.cardId, row.rarity, now)];
      clock := now;
      r := ClaimSuccess;
    }

    method IsCardClaimed(spawnId: int) returns (claimed: bool)
      requires Valid()
      ensures claimed <==> exists k :: 0 <= k < |spawnedCards| && spawnedCards[k].id == spawnId && spawnedCards[k].claimed
      ensures (forall k :: 0 <= k < |spawnedCards| ==> spawnedCards[k].id != spawnId) ==> !claimed
    {
      var found := FindSpawn(spawnedCards, spawnId);
      claimed := found.Some? && spawnedCards[found.value].claimed;
      if !claimed && found.Some? {
        forall k | 0 <= k < |spawnedCards| && spawnedCards[k].id == spawnId ensures !spawnedCards[k].claimed {
          FindSpawnUnique(spawnedCards, nextSpawnId, spawnId, k);
        }
      }
    }

    method GetUserCards(userId: int) returns (rows: seq<OwnedCard>)
      requires Valid()
      ensures rows == UserCollection(userCards, cards, userId)
      ensures NewestFirst(rows)
      ensures |rows| == |set j | 0 <= j < |userCards| && Joins(userCards[j], cards, userId)|
    {
      rows := UserCollection(userCards, cards, userId);
      UserCollectionNewestFirst(userCards, cards, userId, clock);
      UserCollectionCount(userCards, cards, userId);
    }

    method GetCardInfo(cardId: int) returns (card: Option<CardRow>)
      ensures card.Some? <==> exists k :: 0 <= k < |cards| && cards[k].id == cardId
      ensures card.Some? ==> card.value in cards && card.value.id == cardId
    {
      card := FindCard(cards, cardId);
    }

    method GetAllCards() returns (all: seq<CardRow>)
      ensures all == cards
    {
      all := cards;
    }

    method GetAllClaimedCards() returns (pairs: seq<(int, string)>)
      ensures |pairs| == |userCards|
      ensures forall i :: 0 <= i < |pairs| ==> pairs[i] == (userCards[i].cardId, userCards[i].rarity)
    {
      pairs := ClaimedPairs(userCards);
    }

    method AddCard(name: string, imagePath: string, now: int) returns (id: int)
      requires Valid() && now >= clock
      modifies this
      ensures Valid()
      ensures State() == AfterAddCard(old(State()), name, imagePath, now)
      ensures id == old(nextCardId) && forall k :: 0 <= k < |old(cards)| ==> old(cards)[k].id != id
    {
      AddCardPreservesValid(State(), name, imagePath, now);
      id := nextCardId;
      cards := cards + [CardRow(id, name, imagePath, now)];
      nextCardId := nextCardId + 1;
      clock := now;
    }
  }
}
