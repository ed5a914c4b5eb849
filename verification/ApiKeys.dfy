/** Self-service API keys in Redis: a record per key and, per owner, a sorted set of key digests scored by
    expiry. Times are milliseconds of the one clock gateway and store share; each MULTI is one step, and other
    requests and time may come between an issuance's two. The digest of a key is taken as injective, so a key
    stands for its own digest. */
module ApiKeys {
  import opened Optional

  type Seconds = s: nat | s > 0 witness 1

  datatype Config = Config(rpm: nat, ttl: Seconds, maxPerOwner: nat)

  // ---- keys ----------------------------------------------------------------------------------------------

  const KEY_PREFIX := "jslab_"

  predicate HexDigit(c: char) { '0' <= c <= '9' || 'a' <= c <= 'f' }

  predicate IsHex32(s: string) { |s| == 32 && forall i :: 0 <= i < 32 ==> HexDigit(s[i]) }

  predicate IsValidKeyFormat(key: string) { KEY_PREFIX <= key && IsHex32(key[|KEY_PREFIX|..]) }

  function GenerateApiKey(hex: string): (key: string)
    ensures IsHex32(hex) ==> IsValidKeyFormat(key)
  {
    assert (KEY_PREFIX + hex)[|KEY_PREFIX|..] == hex;
    KEY_PREFIX + hex
  }

  /** Random half-bytes as the hex digits they are written with. */
  function HexOf(nibbles: seq<nat>): (s: string)
    requires forall i :: 0 <= i < |nibbles| ==> nibbles[i] < 16
    ensures |s| == |nibbles|
  {
    seq(|nibbles|, i requires 0 <= i < |nibbles| => "0123456789abcdef"[nibbles[i]])
  }

  function Nibble(c: char): nat { if '0' <= c <= '9' then c as nat - '0' as nat else if 'a' <= c <= 'f' then c as nat - 'a' as nat + 10 else 0 }

  lemma DigitOfNibble(c: char)
    ensures HexDigit(c) ==> Nibble(c) < 16 && "0123456789abcdef"[Nibble(c)] == c
  {
  }

  lemma NibbleIsDigit(n: nat)
    requires n < 16
    ensures HexDigit("0123456789abcdef"[n])
  {
  }

  /** A key has the right format if and only if sixteen random bytes can come out as it. */
  lemma FormatIffGenerated(key: string)
    ensures IsValidKeyFormat(key) <==>
      exists nibbles: seq<nat> :: |nibbles| == 32 && (forall i :: 0 <= i < 32 ==> nibbles[i] < 16) && key == GenerateApiKey(HexOf(nibbles))
  {
    hide HexDigit, Nibble;
    if IsValidKeyFormat(key) {
      var hex := key[|KEY_PREFIX|..];
      forall i | 0 <= i < 32 ensures Nibble(hex[i]) < 16 && "0123456789abcdef"[Nibble(hex[i])] == hex[i] { DigitOfNibble(hex[i]); }
      var nibbles := seq(32, i requires 0 <= i < 32 => Nibble(hex[i]));
      assert HexOf(nibbles) == hex;
      assert key == KEY_PREFIX + hex;
    }
    if nibbles: seq<nat> :| |nibbles| == 32 && (forall i :: 0 <= i < 32 ==> nibbles[i] < 16) && key == GenerateApiKey(HexOf(nibbles)) {
      forall i | 0 <= i < 32 ensures HexDigit(HexOf(nibbles)[i]) { NibbleIsDigit(nibbles[i]); }
    }
  }

  // ---- the store -----------------------------------------------------------------------------------------

  datatype ApiKeyRecord = ApiKeyRecord(createdAt: nat, rpm: nat)

  datatype Stored = Stored(record: ApiKeyRecord, expiresAt: nat)

  datatype Index = Index(members: map<string, nat>, expiresAt: Option<nat>)

  datatype Store = Store(records: map<string, Stored>, owners: map<string, Index>)

  predicate Live(store: Store, key: string, now: nat) { key in store.records && store.records[key].expiresAt > now }

  /** An owner's members, none once the set's own key has expired. */
  function Members(store: Store, owner: string, now: nat): map<string, nat> {
    if owner in store.owners && (store.owners[owner].expiresAt.Some? ==> store.owners[owner].expiresAt.value > now)
    then store.owners[owner].members
    else map[]
  }

  function Above(members: map<string, nat>, ceiling: nat): map<string, nat> {
    map k | k in members && members[k] > ceiling :: members[k]
  }

  /** A sorted set that becomes empty is no longer a key. */
  function Pruned(store: Store, owner: string, ceiling: nat, now: nat): Store {
    var kept := Above(Members(store, owner, now), ceiling);
    store.(owners := if kept == map[] then store.owners - {owner}
                     else store.owners[owner := store.owners[owner].(members := kept)])
  }

  /** SET EX, ZADD, EXPIRE as one transaction. */
  function Written(c: Config, store: Store, owner: string, stamp: nat, key: string, now: nat): Store {
    Store(
      store.records[key := Stored(ApiKeyRecord(stamp, c.rpm), now + 1000 * c.ttl)],
      store.owners[owner := Index(Members(store, owner, now)[key := stamp + 1000 * c.ttl], Some(now + 1000 * c.ttl))])
  }

  function Lookup(store: Store, key: string, now: nat): Option<ApiKeyRecord> {
    if IsValidKeyFormat(key) && Live(store, key, now) then Some(store.records[key].record) else None
  }

  function Revoked(store: Store, key: string): Store { store.(records := store.records - {key}) }

  // ---- the steps -----------------------------------------------------------------------------------------

  /** An issuance that passed its check and has yet to write. */
  datatype Pending = Pending(owner: string, stamp: nat)

  /** When a key was asked for and when it was written. */
  datatype Issue = Issue(owner: string, stamp: nat, written: nat)

  datatype State = State(
    now: nat, store: Store, pending: map<nat, Pending>, issued: map<string, Issue>, revoked: set<string>)

  const Start := State(0, Store(map[], map[]), map[], map[], {})

  datatype Event =
    | Tick(ms: nat)
    | Check(id: nat, owner: string, stamp: nat)
    | Write(id: nat, hex: string)
    | Abandon(id: nat)
    | Revoke(key: string)

  /** Stamps are never ahead of the clock and random keys never repeat; anything else is no event. */
  predicate Possible(s: State, e: Event) {
    match e
    case Tick(_) => true
    case Check(id, _, stamp) => id !in s.pending && stamp <= s.now
    case Write(id, hex) => id in s.pending && IsHex32(hex) && GenerateApiKey(hex) !in s.issued
    case Abandon(id) => id in s.pending
    case Revoke(key) => true
  }

  function Step(c: Config, s: State, e: Event): State {
    if !Possible(s, e) then s
    else
      match e
      case Tick(ms) => s.(now := s.now + ms)
      case Check(id, owner, stamp) =>
        var store := Pruned(s.store, owner, stamp, s.now);
        s.(store := store,
           pending := if |Members(store, owner, s.now)| >= c.maxPerOwner then s.pending
                      else s.pending[id := Pending(owner, stamp)])
      case Write(id, hex) =>
        var key, p := GenerateApiKey(hex), s.pending[id];
        s.(store := Written(c, s.store, p.owner, p.stamp, key, s.now),
           pending := s.pending - {id},
           issued := s.issued[key := Issue(p.owner, p.stamp, s.now)])
      case Abandon(id) => s.(pending := s.pending - {id})
      case Revoke(key) =>
        if !IsValidKeyFormat(key) then s
        else s.(store := Revoked(s.store, key),
                revoked := if Live(s.store, key, s.now) then s.revoked + {key} else s.revoked)
  }

  function Exec(c: Config, events: seq<Event>): State {
    if events == [] then Start else Step(c, Exec(c, events[..|events| - 1]), events[|events| - 1])
  }

  // ---- the invariant -------------------------------------------------------------------------------------

  function Score(c: Config, i: Issue): nat { i.stamp + 1000 * c.ttl }
  function Death(c: Config, i: Issue): nat { i.written + 1000 * c.ttl }

  /** Before its score every key, revoked or not, is in its owner's index, and the index outlives it. */
  ghost predicate Indexed(c: Config, s: State, key: string)
    requires key in s.issued
  {
    var i := s.issued[key];
    Score(c, i) > s.now ==>
      && i.owner in s.store.owners
      && key in s.store.owners[i.owner].members
      && s.store.owners[i.owner].members[key] == Score(c, i)
      && s.store.owners[i.owner].expiresAt.Some?
      && s.store.owners[i.owner].expiresAt.value >= Death(c, i)
  }

  /** A key's record is in the store from its writing to its death, unless it was revoked. */
  ghost predicate Recorded(c: Config, s: State, key: string)
    requires key in s.issued
  {
    var i := s.issued[key];
    && i.stamp <= i.written <= s.now
    && IsValidKeyFormat(key)
    && (key !in s.revoked && s.now < Death(c, i) ==> key in s.store.records)
    && (key in s.store.records ==>
          key !in s.revoked && s.store.records[key] == Stored(ApiKeyRecord(i.stamp, c.rpm), Death(c, i)))
  }

  ghost predicate Inv(c: Config, s: State) {
    && (forall key :: key in s.issued ==> Indexed(c, s, key))
    && (forall key :: key in s.issued ==> Recorded(c, s, key))
    && (forall key :: key in s.store.records || key in s.revoked ==> key in s.issued)
    && (forall id :: id in s.pending ==> s.pending[id].stamp <= s.now)
  }

  lemma {:induction false} RunKeeps(c: Config, events: seq<Event>)
    ensures Inv(c, Exec(c, events))
  {
    hide Inv, Step;
    if events == [] {
      StartKeeps(c);
    } else {
      RunKeeps(c, events[..|events| - 1]);
      StepKeeps(c, Exec(c, events[..|events| - 1]), events[|events| - 1]);
    }
  }

  lemma StartKeeps(c: Config)
    ensures Inv(c, Start)
  {
  }

  lemma StepKeeps(c: Config, s: State, e: Event)
    requires Inv(c, s)
    ensures Inv(c, Step(c, s, e))
  {
    if Possible(s, e) {
      match e {
        case Tick(ms) =>
        case Check(id, owner, stamp) => CheckKeeps(c, s, id, owner, stamp);
        case Write(id, hex) => WriteKeeps(c, s, id, hex);
        case Abandon(id) =>
        case Revoke(key) =>
      }
    }
  }

  lemma CheckKeeps(c: Config, s: State, id: nat, owner: string, stamp: nat)
    requires Inv(c, s) && Possible(s, Check(id, owner, stamp))
    ensures Inv(c, Step(c, s, Check(id, owner, stamp)))
  {
    hide IsValidKeyFormat;
    var t := Step(c, s, Check(id, owner, stamp));
    forall key | key in t.issued ensures Indexed(c, t, key) {
      assert Indexed(c, s, key) && Recorded(c, s, key);
      var i := s.issued[key];
      if Score(c, i) > s.now && i.owner == owner {
        var members := Members(s.store, owner, s.now);
        assert key in members && members[key] > stamp;
        assert key in Above(members, stamp);
      }
    }
    assert forall key :: key in s.issued ==> Recorded(c, s, key) ==> Recorded(c, t, key);
  }

  lemma WriteKeeps(c: Config, s: State, id: nat, hex: string)
    requires Inv(c, s) && Possible(s, Write(id, hex))
    ensures Inv(c, Step(c, s, Write(id, hex)))
  {
    var new_, p := GenerateApiKey(hex), s.pending[id];
    hide IsValidKeyFormat, IsHex32, GenerateApiKey;
    var t := Step(c, s, Write(id, hex));
    forall key | key in t.issued ensures Indexed(c, t, key) && Recorded(c, t, key) {
      if key != new_ {
        assert Indexed(c, s, key) && Recorded(c, s, key);
      }
    }
  }

  // ---- how many keys an owner holds ------------------------------------------------------------------------

  /** Members whose score is still ahead. */
  function InTerm(store: Store, owner: string, now: nat): set<string> {
    var members := Members(store, owner, now);
    set k | k in members && members[k] > now
  }

  function PendingFor(s: State, owner: string): set<nat> {
    set id | id in s.pending && s.pending[id].owner == owner
  }

  function Held(s: State, owner: string): nat { |InTerm(s.store, owner, s.now)| + |PendingFor(s, owner)| }

  lemma SubsetSize<T>(a: set<T>, b: set<T>)
    requires a <= b
    ensures |a| <= |b|
  {
    assert b == a + (b - a);
  }

  lemma CheckHolds(c: Config, s: State, e: Event, owner: string)
    requires e.Check? && Possible(s, e)
    ensures var t := Step(c, s, e);
            Held(t, owner) <= Held(s, owner) || Held(t, owner) + 1 <= c.maxPerOwner + |PendingFor(t, owner)|
  {
    var t := Step(c, s, e);
    SubsetSize(InTerm(t.store, owner, s.now), InTerm(s.store, owner, s.now));
    if e.owner == owner {
      SubsetSize(InTerm(t.store, owner, s.now), Members(t.store, owner, s.now).Keys);
      if t.pending == s.pending { assert PendingFor(t, owner) == PendingFor(s, owner); }
    } else {
      assert PendingFor(t, owner) == PendingFor(s, owner);
    }
  }

  lemma WriteHolds(c: Config, s: State, e: Event, owner: string)
    requires e.Write? && Possible(s, e)
    ensures Held(Step(c, s, e), owner) <= Held(s, owner)
  {
    hide IsHex32, IsValidKeyFormat;
    var key, p := GenerateApiKey(e.hex), s.pending[e.id];
    hide GenerateApiKey;
    var t := Step(c, s, e);
    if p.owner == owner {
      SubsetSize(InTerm(t.store, owner, s.now), InTerm(s.store, owner, s.now) + {key});
      assert PendingFor(t, owner) == PendingFor(s, owner) - {e.id};
    } else {
      assert Members(t.store, owner, s.now) == Members(s.store, owner, s.now);
      assert PendingFor(t, owner) == PendingFor(s, owner);
    }
  }

  /** A step raises an owner's holding only by a check that saw room. */
  lemma StepHolds(c: Config, s: State, e: Event, owner: string)
    ensures var t := Step(c, s, e);
            Held(t, owner) <= Held(s, owner) || Held(t, owner) + 1 <= c.maxPerOwner + |PendingFor(t, owner)|
  {
    if Possible(s, e) {
      var t := Step(c, s, e);
      match e {
        case Tick(ms) =>
          SubsetSize(InTerm(t.store, owner, t.now), InTerm(s.store, owner, s.now));
          assert PendingFor(t, owner) == PendingFor(s, owner);
        case Check(_, _, _) => CheckHolds(c, s, e, owner);
        case Write(_, _) => WriteHolds(c, s, e, owner);
        case Abandon(id) => SubsetSize(PendingFor(t, owner), PendingFor(s, owner));
        case Revoke(key) =>
          assert Members(t.store, owner, t.now) == Members(s.store, owner, s.now);
          assert PendingFor(t, owner) == PendingFor(s, owner);
      }
    }
  }

  /** At most `most` of the owner's issuances are ever between check and write. */
  ghost predicate AtMostPending(c: Config, events: seq<Event>, owner: string, most: nat) {
    forall k :: 0 <= k <= |events| ==> |PendingFor(Exec(c, events[..k]), owner)| <= most
  }

  lemma {:induction false} RunHolds(c: Config, events: seq<Event>, owner: string, most: nat)
    requires most >= 1 && AtMostPending(c, events, owner, most)
    ensures Held(Exec(c, events), owner) <= c.maxPerOwner + most - 1
  {
    if events != [] {
      hide Step, Held, PendingFor;
      var init := events[..|events| - 1];
      assert forall k :: 0 <= k <= |init| ==> init[..k] == events[..k];
      RunHolds(c, init, owner, most);
      StepHolds(c, Exec(c, init), events[|events| - 1], owner);
      assert events[..|events|] == events;
    }
  }

  /** Keys the owner can present, and those of them whose score is still ahead. */
  function LiveKeys(s: State, owner: string): set<string> {
    set key | key in s.issued && s.issued[key].owner == owner && Lookup(s.store, key, s.now).Some?
  }

  function LiveInTerm(c: Config, s: State, owner: string): set<string> {
    set key | key in LiveKeys(s, owner) && Score(c, s.issued[key]) > s.now
  }

  /** In every interleaving with at most `most` issuances between check and write, live keys inside their term
      plus issuances under way stay within maxPerOwner + most - 1; with one at a time, within maxPerOwner. */
  lemma OwnerLimit(c: Config, events: seq<Event>, owner: string, most: nat)
    requires most >= 1 && AtMostPending(c, events, owner, most)
    ensures var s := Exec(c, events);
            |LiveInTerm(c, s, owner)| + |PendingFor(s, owner)| <= c.maxPerOwner + most - 1
  {
    var s := Exec(c, events);
    RunKeeps(c, events);
    RunHolds(c, events, owner, most);
    SubsetSize(LiveInTerm(c, s, owner), InTerm(s.store, owner, s.now));
  }

  /** A live key past its score was written later than its stamp, and that delay bounds how long it outlasts
      it: with no delay every live key is inside its term and the limit covers all of them. */
  lemma LiveOutsideTerm(c: Config, events: seq<Event>, owner: string, key: string)
    ensures var s := Exec(c, events);
            key in LiveKeys(s, owner) && key !in LiveInTerm(c, s, owner) ==>
              s.issued[key].stamp + 1000 * c.ttl <= s.now < s.issued[key].written + 1000 * c.ttl
  {
    var s := Exec(c, events);
    RunKeeps(c, events);
    if key in LiveKeys(s, owner) { assert Recorded(c, s, key); }
  }

  ghost predicate Undelayed(s: State, owner: string) {
    forall key :: key in s.issued && s.issued[key].owner == owner ==> s.issued[key].written == s.issued[key].stamp
  }

  /** No issued key of the owner was written more than `delay` after its stamp. */
  ghost predicate DelayedAtMost(s: State, owner: string, delay: nat) {
    forall key :: key in s.issued && s.issued[key].owner == owner ==> s.issued[key].written <= s.issued[key].stamp + delay
  }

  lemma UndelayedLimit(c: Config, events: seq<Event>, owner: string, most: nat)
    requires most >= 1 && AtMostPending(c, events, owner, most) && Undelayed(Exec(c, events), owner)
    ensures var s := Exec(c, events);
            |LiveKeys(s, owner)| + |PendingFor(s, owner)| <= c.maxPerOwner + most - 1
  {
    var s := Exec(c, events);
    OwnerLimit(c, events, owner, most);
    forall key | key in LiveKeys(s, owner) ensures key in LiveInTerm(c, s, owner) {
      LiveOutsideTerm(c, events, owner, key);
    }
    assert LiveKeys(s, owner) == LiveInTerm(c, s, owner);
  }

  lemma ExecMore(c: Config, events: seq<Event>, e: Event)
    ensures Exec(c, events + [e]) == Step(c, Exec(c, events), e)
  {
    assert (events + [e])[..|events|] == events;
  }

  /** Issuances whose stamp had passed one lifetime ago while their write had not: under way at that instant. */
  function UnderWayThen(c: Config, s: State, owner: string): set<string> {
    set key | key in s.issued && s.issued[key].owner == owner && Score(c, s.issued[key]) <= s.now < Death(c, s.issued[key])
  }

  /** All live keys: beyond maxPerOwner + most - 1 there can only be the issuances that were under way one
      lifetime ago. */
  lemma LiveLimit(c: Config, events: seq<Event>, owner: string, most: nat)
    requires most >= 1 && AtMostPending(c, events, owner, most)
    ensures var s := Exec(c, events);
            |LiveKeys(s, owner)| + |PendingFor(s, owner)| <= c.maxPerOwner + most - 1 + |UnderWayThen(c, s, owner)|
  {
    var s := Exec(c, events);
    OwnerLimit(c, events, owner, most);
    forall key | key in LiveKeys(s, owner) - LiveInTerm(c, s, owner) ensures key in UnderWayThen(c, s, owner) {
      LiveOutsideTerm(c, events, owner, key);
    }
    SubsetSize(LiveKeys(s, owner) - LiveInTerm(c, s, owner), UnderWayThen(c, s, owner));
    assert LiveKeys(s, owner) == LiveInTerm(c, s, owner) + (LiveKeys(s, owner) - LiveInTerm(c, s, owner));
  }

  // ---- the limits are met, for every maxPerOwner -----------------------------------------------------------

  function KeysOf(hexes: seq<string>): set<string> { set i | 0 <= i < |hexes| :: GenerateApiKey(hexes[i]) }

  ghost predicate Distinct(hexes: seq<string>) {
    && (forall i :: 0 <= i < |hexes| ==> IsHex32(hexes[i]))
    && (forall i, j :: 0 <= i < j < |hexes| ==> hexes[i] != hexes[j])
  }

  lemma KeyTellsHex(a: string, b: string)
    requires GenerateApiKey(a) == GenerateApiKey(b)
    ensures a == b
  {
    assert a == GenerateApiKey(a)[|KEY_PREFIX|..] && b == GenerateApiKey(b)[|KEY_PREFIX|..];
  }

  lemma KeysOfMore(hexes: seq<string>)
    requires hexes != [] && Distinct(hexes)
    ensures var init, last := hexes[..|hexes| - 1], GenerateApiKey(hexes[|hexes| - 1]);
            Distinct(init) && KeysOf(hexes) == KeysOf(init) + {last} && last !in KeysOf(init)
  {
    hide IsHex32, GenerateApiKey;
    var init, n := hexes[..|hexes| - 1], |hexes| - 1;
    assert forall i :: 0 <= i < n ==> init[i] == hexes[i];
    if GenerateApiKey(hexes[n]) in KeysOf(init) {
      var i :| 0 <= i < n && GenerateApiKey(init[i]) == GenerateApiKey(hexes[n]);
      KeyTellsHex(init[i], hexes[n]);
      assert false;
    }
  }

  lemma {:induction false} KeysOfSize(hexes: seq<string>)
    requires Distinct(hexes)
    ensures |KeysOf(hexes)| == |hexes|
  {
    hide Distinct, KeysOf;
    if hexes == [] {
      KeysOfNone();
    } else {
      KeysOfMore(hexes);
      KeysOfSize(hexes[..|hexes| - 1]);
    }
  }

  lemma KeysOfNone()
    ensures KeysOf([]) == {}
  {
  }

  /** A check stamped now keeps exactly the members in term, and passes while they are fewer than the limit. */
  lemma CheckNow(c: Config, s: State, id: nat, owner: string)
    requires id !in s.pending && |InTerm(s.store, owner, s.now)| < c.maxPerOwner
    ensures var t := Step(c, s, Check(id, owner, s.now));
            && t.now == s.now && t.issued == s.issued && t.pending == s.pending[id := Pending(owner, s.now)]
            && InTerm(t.store, owner, s.now) == InTerm(s.store, owner, s.now)
            && t.store.records == s.store.records && LiveKeys(t, owner) == LiveKeys(s, owner)
  {
    hide IsValidKeyFormat;
    var t := Step(c, s, Check(id, owner, s.now));
    var members := Members(s.store, owner, s.now);
    assert Above(members, s.now).Keys == InTerm(s.store, owner, s.now);
    assert Members(t.store, owner, s.now) == Above(members, s.now);
    assert |Members(t.store, owner, s.now)| == |Above(members, s.now).Keys|;
  }

  /** A write adds its key to the keys in term, if its score is ahead, and to the live ones. */
  lemma WriteNow(c: Config, s: State, id: nat, hex: string)
    requires id in s.pending && IsHex32(hex) && GenerateApiKey(hex) !in s.issued
    requires s.pending[id].stamp + 1000 * c.ttl > s.now
    ensures var p, key, t := s.pending[id], GenerateApiKey(hex), Step(c, s, Write(id, hex));
            && t.now == s.now && t.pending == s.pending - {id}
            && t.issued == s.issued[key := Issue(p.owner, p.stamp, s.now)]
            && InTerm(t.store, p.owner, s.now) == InTerm(s.store, p.owner, s.now) + {key}
            && LiveKeys(t, p.owner) == LiveKeys(s, p.owner) + {key}
  {
    assert IsValidKeyFormat(GenerateApiKey(hex));
    hide IsHex32, IsValidKeyFormat, GenerateApiKey;
    assert Possible(s, Write(id, hex));
  }

  /** One issuance after another, each at once. */
  function Fill(owner: string, id: nat, hexes: seq<string>, stamp: nat): seq<Event> {
    if hexes == [] then []
    else
      var n := |hexes| - 1;
      Fill(owner, id, hexes[..n], stamp) + [Check(id + n, owner, stamp)] + [Write(id + n, hexes[n])]
  }

  lemma AtMostPendingMore(c: Config, events: seq<Event>, e: Event, owner: string, most: nat)
    requires AtMostPending(c, events, owner, most)
    requires |PendingFor(Exec(c, events + [e]), owner)| <= most
    ensures AtMostPending(c, events + [e], owner, most)
  {
    hide Exec, PendingFor;
    var more := events + [e];
    forall k | 0 <= k <= |more| ensures |PendingFor(Exec(c, more[..k]), owner)| <= most {
      if k <= |events| { assert more[..k] == events[..k]; } else { assert more[..k] == more; }
    }
  }

  /** What issuing these keys at once adds. */
  ghost predicate Added(s: State, t: State, owner: string, keys: set<string>) {
    && t.now == s.now
    && InTerm(t.store, owner, s.now) == InTerm(s.store, owner, s.now) + keys
    && LiveKeys(t, owner) == LiveKeys(s, owner) + keys
    && t.issued.Keys == s.issued.Keys + keys
    && (forall key :: key in s.issued && key !in keys ==> t.issued[key] == s.issued[key])
    && (forall key :: key in keys ==> key in t.issued && t.issued[key] == Issue(owner, s.now, s.now))
  }

  lemma {:induction false} FillAdds(c: Config, events: seq<Event>, owner: string, id: nat, hexes: seq<string>, most: nat)
    requires most >= 1 && AtMostPending(c, events, owner, most) && Distinct(hexes)
    requires var s := Exec(c, events);
             s.pending == map[] && KeysOf(hexes) !! s.issued.Keys
             && |InTerm(s.store, owner, s.now)| + |hexes| <= c.maxPerOwner
    ensures var s, after := Exec(c, events), events + Fill(owner, id, hexes, Exec(c, events).now);
            Exec(c, after).pending == map[] && Added(s, Exec(c, after), owner, KeysOf(hexes))
            && AtMostPending(c, after, owner, most)
  {
    hide Exec, Step, InTerm, LiveKeys, AtMostPending, IsHex32, GenerateApiKey, PendingFor, Added, Distinct, KeysOf;
    var s := Exec(c, events);
    if hexes == [] {
      KeysOfNone();
      NothingAdded(s, owner);
      assert events + Fill(owner, id, [], s.now) == events;
    } else {
      var n := |hexes| - 1;
      var init, hex := hexes[..n], hexes[n];
      KeysOfMore(hexes);
      LastIsHex(hexes);
      FillAdds(c, events, owner, id, init, most);
      var before := events + Fill(owner, id, init, s.now);
      assert events + Fill(owner, id, hexes, s.now) == before + [Check(id + n, owner, s.now)] + [Write(id + n, hex)];
      AddedSize(s, Exec(c, before), owner, init);
      AddedIssued(s, Exec(c, before), owner, KeysOf(init));
      FillOne(c, before, owner, id + n, hex, most);
      AddedMore(s, Exec(c, before), Exec(c, before + [Check(id + n, owner, s.now)] + [Write(id + n, hex)]), owner, KeysOf(init), GenerateApiKey(hex));
    }
  }

  lemma LastIsHex(hexes: seq<string>)
    requires hexes != [] && Distinct(hexes)
    ensures IsHex32(hexes[|hexes| - 1])
  {
  }

  lemma NothingAdded(s: State, owner: string)
    ensures Added(s, s, owner, {})
  {
    hide InTerm, LiveKeys;
  }

  lemma AddedSize(s: State, t: State, owner: string, hexes: seq<string>)
    requires Added(s, t, owner, KeysOf(hexes)) && Distinct(hexes)
    ensures |InTerm(t.store, owner, s.now)| <= |InTerm(s.store, owner, s.now)| + |hexes|
  {
    hide InTerm, LiveKeys, KeysOf;
    KeysOfSize(hexes);
  }

  lemma AddedIssued(s: State, t: State, owner: string, keys: set<string>)
    requires Added(s, t, owner, keys)
    ensures t.now == s.now && t.issued.Keys == s.issued.Keys + keys
  {
    hide InTerm, LiveKeys;
  }

  lemma AddedMore(s: State, t: State, u: State, owner: string, keys: set<string>, key: string)
    requires Added(s, t, owner, keys) && Added(t, u, owner, {key})
    ensures Added(s, u, owner, keys + {key})
  {
    hide InTerm, LiveKeys;
  }

  lemma FillOne(c: Config, events: seq<Event>, owner: string, id: nat, hex: string, most: nat)
    requires most >= 1 && AtMostPending(c, events, owner, most)
    requires var s := Exec(c, events);
             && s.pending == map[] && IsHex32(hex) && GenerateApiKey(hex) !in s.issued
             && |InTerm(s.store, owner, s.now)| < c.maxPerOwner
    ensures var s := Exec(c, events);
            var after := events + [Check(id, owner, s.now)] + [Write(id, hex)];
            Exec(c, after).pending == map[] && Added(s, Exec(c, after), owner, {GenerateApiKey(hex)})
            && AtMostPending(c, after, owner, most)
  {
    hide Exec, Step, InTerm, LiveKeys, AtMostPending, IsHex32, GenerateApiKey;
    var s := Exec(c, events);
    var checked := events + [Check(id, owner, s.now)];
    ExecMore(c, events, Check(id, owner, s.now));
    ExecMore(c, checked, Write(id, hex));
    CheckNow(c, s, id, owner);
    WriteNow(c, Exec(c, checked), id, hex);
    assert PendingFor(Exec(c, checked), owner) == {id};
    AtMostPendingMore(c, events, Check(id, owner, s.now), owner, most);
    assert PendingFor(Exec(c, checked + [Write(id, hex)]), owner) == {};
    AtMostPendingMore(c, checked, Write(id, hex), owner, most);
  }

  /** `n` checks at once, and the writes that follow. */
  function Rush(owner: string, id: nat, n: nat, stamp: nat): seq<Event> {
    if n == 0 then [] else Rush(owner, id, n - 1, stamp) + [Check(id + n - 1, owner, stamp)]
  }

  function Land(id: nat, hexes: seq<string>): seq<Event> {
    if hexes == [] then [] else Land(id, hexes[..|hexes| - 1]) + [Write(id + |hexes| - 1, hexes[|hexes| - 1])]
  }

  /** The issuances with ids from `id` on, `n` of them, all stamped now. */
  ghost predicate Rushing(s: State, owner: string, id: nat, n: nat, done: nat) {
    && (forall i :: i in s.pending <==> id + done <= i < id + n)
    && (forall i :: i in s.pending ==> s.pending[i] == Pending(owner, s.now))
  }

  function Ids(id: nat, n: nat): set<nat> { if n == 0 then {} else Ids(id, n - 1) + {id + n - 1} }

  lemma {:induction false} IdsSize(id: nat, n: nat)
    ensures |Ids(id, n)| == n && forall i :: i in Ids(id, n) <==> id <= i < id + n
  {
    if n > 0 { IdsSize(id, n - 1); }
  }

  lemma RushingSize(s: State, owner: string, id: nat, n: nat, done: nat)
    requires done <= n && Rushing(s, owner, id, n, done)
    ensures |PendingFor(s, owner)| == n - done
  {
    IdsSize(id + done, n - done);
    assert PendingFor(s, owner) == Ids(id + done, n - done);
  }

  /** While there is room, all checks of a rush pass. */
  lemma {:induction false} RushPasses(c: Config, events: seq<Event>, owner: string, id: nat, n: nat, most: nat)
    requires n <= most && AtMostPending(c, events, owner, most)
    requires var s := Exec(c, events); s.pending == map[] && |InTerm(s.store, owner, s.now)| < c.maxPerOwner
    ensures var s, after := Exec(c, events), events + Rush(owner, id, n, Exec(c, events).now);
            && Rushing(Exec(c, after), owner, id, n, 0) && Added(s, Exec(c, after), owner, {})
            && AtMostPending(c, after, owner, most)
  {
    hide Exec, Step, InTerm, LiveKeys, AtMostPending, PendingFor, Added;
    var s := Exec(c, events);
    if n == 0 {
      NothingAdded(s, owner);
      assert events + Rush(owner, id, 0, s.now) == events;
    } else {
      RushPasses(c, events, owner, id, n - 1, most);
      var before, e := events + Rush(owner, id, n - 1, s.now), Check(id + n - 1, owner, s.now);
      assert events + Rush(owner, id, n, s.now) == before + [e];
      AddedNone(s, Exec(c, before), owner);
      RushOne(c, before, owner, id, n, most);
      AddedTwice(s, Exec(c, before), Exec(c, before + [e]), owner);
    }
  }

  lemma AddedNone(s: State, t: State, owner: string)
    requires Added(s, t, owner, {})
    ensures t.now == s.now && InTerm(t.store, owner, s.now) == InTerm(s.store, owner, s.now)
  {
    hide InTerm, LiveKeys;
  }

  lemma AddedTwice(s: State, t: State, u: State, owner: string)
    requires Added(s, t, owner, {}) && Added(t, u, owner, {})
    ensures Added(s, u, owner, {})
  {
    hide InTerm, LiveKeys;
  }

  lemma RushOne(c: Config, events: seq<Event>, owner: string, id: nat, n: nat, most: nat)
    requires 1 <= n <= most && AtMostPending(c, events, owner, most)
    requires var s := Exec(c, events); Rushing(s, owner, id, n - 1, 0) && |InTerm(s.store, owner, s.now)| < c.maxPerOwner
    ensures var s := Exec(c, events);
            var after := events + [Check(id + n - 1, owner, s.now)];
            && Rushing(Exec(c, after), owner, id, n, 0) && Added(s, Exec(c, after), owner, {})
            && AtMostPending(c, after, owner, most)
  {
    hide Exec, Step, InTerm, LiveKeys, AtMostPending, PendingFor, Rushing;
    var s := Exec(c, events);
    var e := Check(id + n - 1, owner, s.now);
    ExecMore(c, events, e);
    RushingGrows(s, owner, id, n);
    CheckNow(c, s, id + n - 1, owner);
    RushingGrown(s, Exec(c, events + [e]), owner, id, n);
    RushingSize(Exec(c, events + [e]), owner, id, n, 0);
    AtMostPendingMore(c, events, e, owner, most);
  }

  lemma RushingGrows(s: State, owner: string, id: nat, n: nat)
    requires n >= 1 && Rushing(s, owner, id, n - 1, 0)
    ensures id + n - 1 !in s.pending
  {
  }

  lemma RushingGrown(s: State, t: State, owner: string, id: nat, n: nat)
    requires n >= 1 && Rushing(s, owner, id, n - 1, 0)
    requires t.now == s.now && t.pending == s.pending[id + n - 1 := Pending(owner, s.now)]
    ensures Rushing(t, owner, id, n, 0)
  {
  }

  /** The writes of a rush add all their keys. */
  lemma {:induction false} LandAdds(c: Config, events: seq<Event>, owner: string, id: nat, hexes: seq<string>, n: nat, most: nat)
    requires |hexes| <= n <= most && AtMostPending(c, events, owner, most) && Distinct(hexes)
    requires Rushing(Exec(c, events), owner, id, n, 0) && KeysOf(hexes) !! Exec(c, events).issued.Keys
    ensures var s, after := Exec(c, events), events + Land(id, hexes);
            && Rushing(Exec(c, after), owner, id, n, |hexes|) && Added(s, Exec(c, after), owner, KeysOf(hexes))
            && AtMostPending(c, after, owner, most)
  {
    hide Exec, Step, InTerm, LiveKeys, AtMostPending, PendingFor, IsHex32, GenerateApiKey, Added, Distinct, KeysOf, Rushing;
    var s := Exec(c, events);
    if hexes == [] {
      KeysOfNone();
      NothingAdded(s, owner);
      assert events + Land(id, []) == events;
    } else {
      var m := |hexes| - 1;
      KeysOfMore(hexes);
      LastIsHex(hexes);
      LandAdds(c, events, owner, id, hexes[..m], n, most);
      var before, e := events + Land(id, hexes[..m]), Write(id + m, hexes[m]);
      assert events + Land(id, hexes) == before + [e];
      AddedIssued(s, Exec(c, before), owner, KeysOf(hexes[..m]));
      LandOne(c, before, owner, id, m, hexes[m], n, most);
      AddedMore(s, Exec(c, before), Exec(c, before + [e]), owner, KeysOf(hexes[..m]), GenerateApiKey(hexes[m]));
    }
  }

  lemma LandOne(c: Config, events: seq<Event>, owner: string, id: nat, m: nat, hex: string, n: nat, most: nat)
    requires m < n <= most && AtMostPending(c, events, owner, most) && IsHex32(hex)
    requires Rushing(Exec(c, events), owner, id, n, m) && GenerateApiKey(hex) !in Exec(c, events).issued
    ensures var s, after := Exec(c, events), events + [Write(id + m, hex)];
            && Rushing(Exec(c, after), owner, id, n, m + 1) && Added(s, Exec(c, after), owner, {GenerateApiKey(hex)})
            && AtMostPending(c, after, owner, most)
  {
    hide Exec, Step, InTerm, LiveKeys, AtMostPending, PendingFor, IsHex32, GenerateApiKey;
    var s, e := Exec(c, events), Write(id + m, hex);
    ExecMore(c, events, e);
    WriteNow(c, s, id + m, hex);
    RushingSize(Exec(c, events + [e]), owner, id, n, m + 1);
    AtMostPendingMore(c, events, e, owner, most);
  }

  lemma StartHolds(c: Config, owner: string, most: nat)
    ensures Exec(c, []) == Start && InTerm(Start.store, owner, 0) == {} && LiveKeys(Start, owner) == {}
    ensures AtMostPending(c, [], owner, most)
  {
    assert PendingFor(Start, owner) == {};
  }

  /** The bound is met: with `most` issuances at once, after maxPerOwner - 1 earlier ones, the owner holds
      maxPerOwner + most - 1 live keys.  The check and the write are two transactions. */
  lemma ConcurrentIssuesMeetLimit(c: Config, owner: string, earlier: seq<string>, rush: seq<string>)
    requires |earlier| + 1 == c.maxPerOwner && |rush| >= 1 && Distinct(earlier + rush)
    ensures var most := |rush|;
            var events := [] + Fill(owner, 0, earlier, 0) + Rush(owner, |earlier|, most, 0) + Land(|earlier|, rush);
            AtMostPending(c, events, owner, most) && |LiveInTerm(c, Exec(c, events), owner)| == c.maxPerOwner + most - 1
  {
    hide Exec, Step, InTerm, LiveKeys, AtMostPending, PendingFor, IsHex32, GenerateApiKey, Fill, Rush, Land;
    var most, m := |rush|, |earlier|;
    DistinctParts(earlier, rush);
    StartHolds(c, owner, most);
    FillAdds(c, [], owner, 0, earlier, most);
    var filled := [] + Fill(owner, 0, earlier, 0);
    KeysOfSize(earlier);
    KeysOfSize(rush);
    RushPasses(c, filled, owner, m, most, most);
    var rushed := filled + Rush(owner, m, most, 0);
    LandAdds(c, rushed, owner, m, rush, most, most);
    var s := Exec(c, rushed + Land(m, rush));
    AllInTerm(c, s, owner, KeysOf(earlier) + KeysOf(rush));
    assert |KeysOf(earlier) + KeysOf(rush)| == |KeysOf(earlier)| + |KeysOf(rush)|;
  }

  lemma AllInTerm(c: Config, s: State, owner: string, keys: set<string>)
    requires LiveKeys(s, owner) == keys && forall key :: key in keys ==> key in s.issued && s.issued[key].stamp == s.now
    ensures LiveInTerm(c, s, owner) == keys
  {
    hide LiveKeys;
  }

  lemma DistinctParts(a: seq<string>, b: seq<string>)
    requires Distinct(a + b)
    ensures Distinct(a) && Distinct(b) && KeysOf(a) !! KeysOf(b)
  {
    hide IsHex32, GenerateApiKey;
    assert forall i :: 0 <= i < |a| ==> (a + b)[i] == a[i];
    assert forall j :: 0 <= j < |b| ==> (a + b)[|a| + j] == b[j];
    forall key | key in KeysOf(a) && key in KeysOf(b) ensures false {
      var i :| 0 <= i < |a| && GenerateApiKey(a[i]) == key;
      var j :| 0 <= j < |b| && GenerateApiKey(b[j]) == key;
      KeyTellsHex(a[i], b[j]);
    }
  }

  /** One key alone in the store, asked for at 0 and written at `at`. */
  function OneKey(c: Config, owner: string, key: string, at: nat, now: nat): State {
    var ttl := 1000 * c.ttl;
    State(now, Store(map[key := Stored(ApiKeyRecord(0, c.rpm), at + ttl)],
                     map[owner := Index(map[key := ttl], Some(at + ttl))]),
          map[], map[key := Issue(owner, 0, at)], {})
  }

  function OnePending(id: nat, owner: string, stamp: nat, now: nat, store: Store, issued: map<string, Issue>): State {
    State(now, store, map[id := Pending(owner, stamp)], issued, {})
  }

  lemma CheckEmpty(c: Config, owner: string)
    requires c.maxPerOwner >= 1
    ensures Step(c, Start, Check(0, owner, 0)) == OnePending(0, owner, 0, 0, Start.store, map[])
  {
    assert Start.store.owners - {owner} == map[];
  }

  lemma IssueOne(c: Config, owner: string, hex: string, delay: nat)
    requires c.maxPerOwner >= 1 && IsHex32(hex)
    ensures Exec(c, [] + [Check(0, owner, 0)] + [Tick(delay)] + [Write(0, hex)])
         == OneKey(c, owner, GenerateApiKey(hex), delay, delay)
  {
    ExecMore(c, [], Check(0, owner, 0));
    ExecMore(c, [] + [Check(0, owner, 0)], Tick(delay));
    ExecMore(c, [] + [Check(0, owner, 0)] + [Tick(delay)], Write(0, hex));
    CheckEmpty(c, owner);
    assert Step(c, OnePending(0, owner, 0, 0, Start.store, map[]), Tick(delay))
        == OnePending(0, owner, 0, delay, Start.store, map[]);
    hide Step, IsHex32, GenerateApiKey, OneKey, OnePending;
  }

  lemma TickOne(c: Config, owner: string, key: string, at: nat, ms: nat)
    ensures Step(c, OneKey(c, owner, key, at, at), Tick(ms)) == OneKey(c, owner, key, at, at + ms)
  {
  }

  /** At or past its score and before its death the one key is live, but no longer counted. */
  lemma OneKeyOverdue(c: Config, owner: string, key: string, at: nat, now: nat)
    requires IsValidKeyFormat(key) && 1000 * c.ttl <= now < at + 1000 * c.ttl
    ensures var s := OneKey(c, owner, key, at, now);
            s.pending == map[] && InTerm(s.store, owner, now) == {} && LiveKeys(s, owner) == {key}
  {
    hide IsValidKeyFormat;
  }

  /** One check and write at a time: never more than one issuance under way. */
  lemma OneAtATime(c: Config, owner: string, hex: string, delay: nat, wait: nat)
    requires c.maxPerOwner >= 1 && IsHex32(hex)
    ensures AtMostPending(c, [] + [Check(0, owner, 0)] + [Tick(delay)] + [Write(0, hex)] + [Tick(wait)], owner, 1)
    ensures Exec(c, [] + [Check(0, owner, 0)] + [Tick(delay)] + [Write(0, hex)] + [Tick(wait)])
         == OneKey(c, owner, GenerateApiKey(hex), delay, delay + wait)
  {
    hide Exec, Step, AtMostPending, PendingFor, OneKey, IsHex32, GenerateApiKey;
    var e1 := [] + [Check(0, owner, 0)];
    var e2 := e1 + [Tick(delay)];
    var e3 := e2 + [Write(0, hex)];
    StartHolds(c, owner, 1);
    CheckEmpty(c, owner);
    IssueOne(c, owner, hex, delay);
    ExecMore(c, [], Check(0, owner, 0));
    ExecMore(c, e1, Tick(delay));
    ExecMore(c, e3, Tick(wait));
    TickOne(c, owner, GenerateApiKey(hex), delay, wait);
    FewPending(c, owner, GenerateApiKey(hex), delay, delay + wait);
    AtMostPendingMore(c, [], Check(0, owner, 0), owner, 1);
    AtMostPendingMore(c, e1, Tick(delay), owner, 1);
    AtMostPendingMore(c, e2, Write(0, hex), owner, 1);
    AtMostPendingMore(c, e3, Tick(wait), owner, 1);
  }

  lemma FewPending(c: Config, owner: string, key: string, at: nat, now: nat)
    ensures var s := OnePending(0, owner, 0, 0, Start.store, map[]);
            |PendingFor(s, owner)| == 1 && |PendingFor(Step(c, s, Tick(at)), owner)| == 1
    ensures |PendingFor(OneKey(c, owner, key, at, at), owner)| == 0 && |PendingFor(OneKey(c, owner, key, at, now), owner)| == 0
  {
    var s := OnePending(0, owner, 0, 0, Start.store, map[]);
    assert PendingFor(s, owner) == {0} && PendingFor(Step(c, s, Tick(at)), owner) == {0};
    assert PendingFor(OneKey(c, owner, key, at, at), owner) == {} && PendingFor(OneKey(c, owner, key, at, now), owner) == {};
  }

  /** Whatever the limit, any delay between stamp and write lets one-at-a-time issuance pass it: at its score the
      first key leaves the index, and while it lives on for the delay the owner fills the limit anew. */
  lemma DelayedWriteOverlaps(c: Config, owner: string, hex: string, hexes: seq<string>, delay: nat)
    requires |hexes| == c.maxPerOwner >= 1 && delay > 0 && Distinct([hex] + hexes)
    ensures var score := 1000 * c.ttl;
            var wait := if delay < score then score - delay else 0;
            var events := [] + [Check(0, owner, 0)] + [Tick(delay)] + [Write(0, hex)] + [Tick(wait)]
                          + Fill(owner, 1, hexes, delay + wait);
            && AtMostPending(c, events, owner, 1) && PendingFor(Exec(c, events), owner) == {}
            && |LiveKeys(Exec(c, events), owner)| == c.maxPerOwner + 1
            && DelayedAtMost(Exec(c, events), owner, delay)
  {
    hide Exec, Step, AtMostPending, OneKey, IsHex32, GenerateApiKey, InTerm, LiveKeys, Fill;
    var score := 1000 * c.ttl;
    var wait := if delay < score then score - delay else 0;
    var before := [] + [Check(0, owner, 0)] + [Tick(delay)] + [Write(0, hex)] + [Tick(wait)];
    var key, now := GenerateApiKey(hex), delay + wait;
    DistinctParts([hex], hexes);
    assert IsHex32([hex][0]);
    OneAtATime(c, owner, hex, delay, wait);
    OneKeyOverdue(c, owner, key, delay, now);
    OneKeyIssued(c, owner, key, delay, now);
    assert KeysOf([hex]) == {key};
    FillAdds(c, before, owner, 1, hexes, 1);
    KeysOfSize(hexes);
    assert |{key} + KeysOf(hexes)| == 1 + |KeysOf(hexes)|;
    AddedDelay(Exec(c, before), Exec(c, before + Fill(owner, 1, hexes, now)), owner, KeysOf(hexes), delay);
  }

  lemma OneKeyIssued(c: Config, owner: string, key: string, at: nat, now: nat)
    ensures OneKey(c, owner, key, at, now).issued.Keys == {key} && OneKey(c, owner, key, at, now).now == now
    ensures DelayedAtMost(OneKey(c, owner, key, at, now), owner, at)
  {
  }

  lemma AddedDelay(s: State, t: State, owner: string, keys: set<string>, delay: nat)
    requires Added(s, t, owner, keys) && DelayedAtMost(s, owner, delay)
    ensures DelayedAtMost(t, owner, delay)
  {
    hide InTerm, LiveKeys;
  }

  /** Every run that issues one key at a time and writes it within `delay` keeps the owner to the limit. */
  ghost predicate KeepsLimit(c: Config, owner: string, delay: nat) {
    forall events | AtMostPending(c, events, owner, 1) && DelayedAtMost(Exec(c, events), owner, delay) ::
      |LiveKeys(Exec(c, events), owner)| + |PendingFor(Exec(c, events), owner)| <= c.maxPerOwner
  }

  /** One key at a time, the limit covers all live keys exactly when no delay between stamp and write is
      tolerated, or no key is issued at all.  `hexes` are enough random keys to pass the limit. */
  lemma LimitKeptIffNoDelay(c: Config, owner: string, delay: nat, hexes: seq<string>)
    requires Distinct(hexes) && |hexes| == c.maxPerOwner + 1
    ensures KeepsLimit(c, owner, delay) <==> delay == 0 || c.maxPerOwner == 0
  {
    hide Exec, AtMostPending, DelayedAtMost, PendingFor, LiveKeys, Fill, Distinct;
    if delay == 0 || c.maxPerOwner == 0 {
      forall events | AtMostPending(c, events, owner, 1) && DelayedAtMost(Exec(c, events), owner, delay)
        ensures |LiveKeys(Exec(c, events), owner)| + |PendingFor(Exec(c, events), owner)| <= c.maxPerOwner
      {
        if c.maxPerOwner == 0 { NoneIssued(c, events, owner); } else { NoDelay(c, events, owner); }
      }
    } else {
      assert hexes == [hexes[0]] + hexes[1..];
      DelayedWriteOverlaps(c, owner, hexes[0], hexes[1..], delay);
    }
  }

  lemma NoDelay(c: Config, events: seq<Event>, owner: string)
    requires AtMostPending(c, events, owner, 1) && DelayedAtMost(Exec(c, events), owner, 0)
    ensures |LiveKeys(Exec(c, events), owner)| + |PendingFor(Exec(c, events), owner)| <= c.maxPerOwner
  {
    hide Exec, AtMostPending, LiveKeys, PendingFor, IsValidKeyFormat;
    var s := Exec(c, events);
    RunKeeps(c, events);
    forall key | key in s.issued && s.issued[key].owner == owner ensures s.issued[key].written == s.issued[key].stamp {
      assert Recorded(c, s, key);
    }
    UndelayedLimit(c, events, owner, 1);
  }

  lemma NoneIssued(c: Config, events: seq<Event>, owner: string)
    requires c.maxPerOwner == 0
    ensures LiveKeys(Exec(c, events), owner) == {} && PendingFor(Exec(c, events), owner) == {}
  {
    hide Exec;
    NothingHappens(c, events);
  }

  lemma {:induction false} NothingHappens(c: Config, events: seq<Event>)
    requires c.maxPerOwner == 0
    ensures Exec(c, events).pending == map[] && Exec(c, events).issued == map[]
  {
    if events != [] { NothingHappens(c, events[..|events| - 1]); }
  }

  // ---- what a key answers --------------------------------------------------------------------------------

  /** In every run a lookup finds a key exactly when it was issued, not revoked, and not yet `ttl` old. */
  lemma LookupIsExact(c: Config, events: seq<Event>, key: string)
    ensures var s := Exec(c, events);
            Lookup(s.store, key, s.now) ==
              if key in s.issued && key !in s.revoked && s.now < s.issued[key].written + 1000 * c.ttl
              then Some(ApiKeyRecord(s.issued[key].stamp, c.rpm)) else None
  {
    var s := Exec(c, events);
    RunKeeps(c, events);
    if key in s.issued { assert Recorded(c, s, key); }
  }

  lemma {:induction false} RevokedGrows(c: Config, events: seq<Event>, more: seq<Event>)
    ensures Exec(c, events).revoked <= Exec(c, events + more).revoked
  {
    if more == [] {
      assert events + more == events;
    } else {
      var init := more[..|more| - 1];
      assert (events + more)[..|events + more| - 1] == events + init;
      RevokedGrows(c, events, init);
    }
  }

  /** A revoked key never answers again, and revoking it leaves its slot taken. */
  lemma RevokedForGood(c: Config, events: seq<Event>, key: string, more: seq<Event>, owner: string)
    requires Lookup(Exec(c, events).store, key, Exec(c, events).now).Some?
    ensures var t := Exec(c, events + [Revoke(key)]);
            && Members(t.store, owner, t.now) == Members(Exec(c, events).store, owner, t.now)
            && Held(t, owner) == Held(Exec(c, events), owner)
            && var u := Exec(c, events + [Revoke(key)] + more); Lookup(u.store, key, u.now).None?
  {
    ExecMore(c, events, Revoke(key));
    var s, t := Exec(c, events), Exec(c, events + [Revoke(key)]);
    assert PendingFor(t, owner) == PendingFor(s, owner);
    RevokedGrows(c, events + [Revoke(key)], more);
    LookupIsExact(c, events + [Revoke(key)] + more, key);
  }

  // ---- the functions over the store --------------------------------------------------------------------------

  datatype IssueApiKeyResult = Issued(key: string) | AtLimit | StorageError

  class Redis {
    var records: map<string, Stored>
    var owners: map<string, Index>

    function Abs(): Store reads this { Store(records, owners) }

    constructor () ensures Abs() == Start.store
    {
      records, owners := map[], map[];
    }

    /** ZREMRANGEBYSCORE then ZCARD: the issuance up to its first await. */
    method CountLive(owner: string, stamp: nat, now: nat) returns (liveCount: nat)
      modifies this`owners
      ensures Abs() == Pruned(old(Abs()), owner, stamp, now)
      ensures liveCount == |Members(Abs(), owner, now)|
    {
      var members := Members(Abs(), owner, now);
      var kept := Above(members, stamp);
      if kept == map[] {
        owners := owners - {owner};
      } else {
        owners := owners[owner := owners[owner].(members := kept)];
      }
      liveCount := |kept|;
    }

    /** SET EX, ZADD and EXPIRE: the rest of the issuance. */
    method Persist(c: Config, owner: string, stamp: nat, key: string, now: nat)
      modifies this
      ensures Abs() == Written(c, old(Abs()), owner, stamp, key, now)
    {
      var expiresAt := stamp + 1000 * c.ttl;
      var members := Members(Abs(), owner, now);
      records := records[key := Stored(ApiKeyRecord(stamp, c.rpm), now + 1000 * c.ttl)];
      owners := owners[owner := Index(members[key := expiresAt], Some(now + 1000 * c.ttl))];
    }

    /** One issuance nobody interrupts, its check run at `checked` and its write at `written`; `up` and `upAgain`
        say whether the store answers each transaction. */
    method IssueApiKey(c: Config, owner: string, stamp: nat, checked: nat, written: nat, hex: string, up: bool, upAgain: bool)
      returns (r: IssueApiKeyResult)
      modifies this
      ensures var pruned := Pruned(old(Abs()), owner, stamp, checked);
              && (!up ==> r == StorageError && Abs() == old(Abs()))
              && (up && |Members(pruned, owner, checked)| >= c.maxPerOwner ==> r == AtLimit && Abs() == pruned)
              && (up && |Members(pruned, owner, checked)| < c.maxPerOwner ==>
                    if upAgain then r == Issued(GenerateApiKey(hex))
                                    && Abs() == Written(c, pruned, owner, stamp, GenerateApiKey(hex), written)
                    else r == StorageError && Abs() == pruned)
    {
      if !up { return StorageError; }
      var liveCount := CountLive(owner, stamp, checked);
      if liveCount >= c.maxPerOwner { return AtLimit; }
      var key := GenerateApiKey(hex);
      if !upAgain { return StorageError; }
      Persist(c, owner, stamp, key, written);
      return Issued(key);
    }

    method LookupApiKey(key: string, now: nat) returns (r: Option<ApiKeyRecord>)
      ensures r == Lookup(Abs(), key, now)
    {
      if !IsValidKeyFormat(key) { return None; }
      if key !in records || records[key].expiresAt <= now { return None; }
      return Some(records[key].record);
    }

    /** True when a live record was deleted. */
    method RevokeApiKey(key: string, now: nat) returns (revoked: bool)
      modifies this`records
      ensures Abs() == if IsValidKeyFormat(key) then Revoked(old(Abs()), key) else old(Abs())
      ensures revoked <==> Lookup(old(Abs()), key, now).Some?
      ensures Lookup(Abs(), key, now).None?
    {
      if !IsValidKeyFormat(key) { return false; }
      revoked := key in records && records[key].expiresAt > now;
      records := records - {key};
    }
  }
}
