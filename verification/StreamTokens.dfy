/** Single-use tokens that open a log stream (web/api/logs_stream.py). The
    store is a dictionary in insertion order; here it is the sequence of its
    entries. Operations run one at a time and the clock never goes back. */
module StreamTokens {
  import opened Common

  const TTL_SECONDS: real := 60.0
  const MAX_ENTRIES: nat := 500

  datatype Token = Token(token: string, ip: string, createdAt: real)

  datatype Event =
    | Issue(token: string, ip: string, now: real)
    | Consume(token: string, ip: string, now: real)

  // ----- the store as a function of the run -----

  function Ids(s: seq<Token>): set<string> {
    set t | t in s :: t.token
  }

  /** The entries whose key is in the given set. */
  function Kept(s: seq<Token>, alive: set<string>): seq<Token> {
    if s == [] then []
    else Kept(s[..|s| - 1], alive) + (if s[|s| - 1].token in alive then [s[|s| - 1]] else [])
  }

  predicate Young(t: Token, now: real) {
    now - t.createdAt <= TTL_SECONDS
  }

  function Fresh(s: seq<Token>, now: real): seq<Token> {
    Kept(s, set t | t in s && Young(t, now) :: t.token)
  }

  /** Room for one more entry: at the limit the first one goes. */
  function Room(s: seq<Token>): seq<Token> {
    if |s| < MAX_ENTRIES then s else s[1..]
  }

  function Pop(s: seq<Token>, token: string): seq<Token> {
    Kept(s, Ids(s) - {token})
  }

  function AfterEvent(s: seq<Token>, e: Event): seq<Token> {
    match e
    case Issue(token, ip, now) => Room(Fresh(s, now)) + [Token(token, ip, now)]
    case Consume(token, _, now) => Pop(Fresh(s, now), token)
  }

  function StoreAfter(events: seq<Event>): seq<Token> {
    if events == [] then [] else AfterEvent(StoreAfter(events[..|events| - 1]), events[|events| - 1])
  }

  ghost predicate Accepts(s: seq<Token>, token: string, ip: string, now: real) {
    exists t :: t in Fresh(s, now) && t.token == token && t.ip == ip && Young(t, now)
  }

  // ----- the run as a full history -----

  /** Every token ever issued, oldest first. */
  function Issued(events: seq<Event>): seq<Token> {
    if events == [] then []
    else
      var e := events[|events| - 1];
      Issued(events[..|events| - 1]) + (if e.Issue? then [Token(e.token, e.ip, e.now)] else [])
  }

  /** The tokens presented since they were issued, whoever presented them. */
  function Spent(events: seq<Event>): set<string> {
    if events == [] then {}
    else
      var e, before := events[|events| - 1], Spent(events[..|events| - 1]);
      if e.Issue? then before - {e.token} else before + {e.token}
  }

  ghost predicate Distinct(s: seq<Token>) {
    forall i, j :: 0 <= i < j < |s| ==> s[i].token != s[j].token
  }

  ghost predicate AgeOrdered(s: seq<Token>, now: real) {
    && (forall i, j :: 0 <= i < j < |s| ==> s[i].createdAt <= s[j].createdAt)
    && (forall i :: 0 <= i < |s| ==> s[i].createdAt <= now)
  }

  /** The clock does not go back and no token is issued twice. */
  ghost predicate Legal(events: seq<Event>) {
    && (forall i, j :: 0 <= i < j < |events| ==> events[i].now <= events[j].now)
    && (forall i, j :: 0 <= i < j < |events| && events[i].Issue? && events[j].Issue? ==>
          events[i].token != events[j].token)
  }

  // ----- filtering -----

  lemma {:induction false} KeptMembers(s: seq<Token>, alive: set<string>)
    ensures forall t :: t in Kept(s, alive) <==> t in s && t.token in alive
    ensures |Kept(s, alive)| <= |s|
  {
    if s != [] {
      KeptMembers(s[..|s| - 1], alive);
      assert s == s[..|s| - 1] + [s[|s| - 1]];
    }
  }

  lemma OrderExtends(s: seq<Token>, t: Token, now: real)
    requires Distinct(s) && AgeOrdered(s, now) && t.createdAt <= now
    requires forall u :: u in s ==> u.token != t.token && u.createdAt <= t.createdAt
    ensures Distinct(s + [t]) && AgeOrdered(s + [t], now)
  {
  }

  lemma {:induction false} KeptOrder(s: seq<Token>, alive: set<string>, now: real)
    requires Distinct(s) && AgeOrdered(s, now)
    ensures Distinct(Kept(s, alive)) && AgeOrdered(Kept(s, alive), now)
  {
    if s != [] {
      var init, last := s[..|s| - 1], s[|s| - 1];
      KeptOrder(init, alive, now);
      KeptMembers(init, alive);
      if last.token in alive {
        OrderExtends(Kept(init, alive), last, now);
      } else {
        assert Kept(s, alive) == Kept(init, alive);
      }
    }
  }

  lemma KeptAppend(s: seq<Token>, t: Token, alive: set<string>)
    ensures Kept(s + [t], alive) == Kept(s, alive) + (if t.token in alive then [t] else [])
  {
    assert (s + [t])[..|s|] == s;
  }

  lemma {:induction false} KeptTwice(s: seq<Token>, first: set<string>, second: set<string>)
    ensures Kept(Kept(s, first), second) == Kept(s, first * second)
  {
    if s != [] {
      var init, last := s[..|s| - 1], s[|s| - 1];
      KeptTwice(init, first, second);
      if last.token in first {
        KeptAppend(Kept(init, first), last, second);
      } else {
        assert Kept(s, first) == Kept(init, first);
        assert Kept(s, first * second) == Kept(init, first * second);
      }
    }
  }

  lemma {:induction false} KeptSame(s: seq<Token>, a: set<string>, b: set<string>)
    requires forall t :: t in s ==> (t.token in a <==> t.token in b)
    ensures Kept(s, a) == Kept(s, b)
  {
    if s != [] {
      KeptSame(s[..|s| - 1], a, b);
    }
  }

  lemma {:induction false} KeptAll(s: seq<Token>)
    ensures Kept(s, Ids(s)) == s
  {
    if s != [] {
      var init := s[..|s| - 1];
      KeptAll(init);
      assert s == init + [s[|s| - 1]];
      KeptSame(init, Ids(s), Ids(init));
    }
  }

  /** Dropping the first entry, as a filter. */
  lemma {:induction false} KeptTail(s: seq<Token>)
    requires Distinct(s) && s != []
    ensures Kept(s, Ids(s) - {s[0].token}) == s[1..]
  {
    var tail := s[1..];
    assert s == [s[0]] + tail;
    KeptCons(s[0], tail, Ids(s) - {s[0].token});
    KeptSame(tail, Ids(s) - {s[0].token}, Ids(tail));
    KeptAll(tail);
  }

  lemma {:induction false} KeptCons(t: Token, s: seq<Token>, alive: set<string>)
    requires t.token !in alive
    ensures Kept([t] + s, alive) == Kept(s, alive)
  {
    if s == [] {
      assert ([t] + s)[..0] == [];
    } else {
      KeptCons(t, s[..|s| - 1], alive);
      assert ([t] + s)[..|s|] == [t] + s[..|s| - 1];
    }
  }

  /** What the filter keeps from its first hit on fits in the rest of the list. */
  lemma {:induction false} KeptFromHead(s: seq<Token>, alive: set<string>, k: nat)
    requires Distinct(s) && k < |s| && Kept(s, alive) != [] && Kept(s, alive)[0] == s[k]
    ensures |Kept(s, alive)| <= |s| - k
  {
    var init := s[..|s| - 1];
    KeptMembers(init, alive);
    if Kept(init, alive) != [] {
      assert Kept(init, alive)[0] in init;
      KeptFromHead(init, alive, k);
    }
  }

  // ----- what every run keeps -----

  /** A token issued, unspent and unexpired is stored while fewer than 500 were issued after it. */
  ghost predicate Retained(issued: seq<Token>, store: seq<Token>, spent: set<string>, now: real, k: nat)
    requires k < |issued|
  {
    || issued[k] in store
    || issued[k].token in spent
    || !Young(issued[k], now)
    || |issued| - 1 - k >= MAX_ENTRIES
  }

  ghost predicate AllRetained(issued: seq<Token>, store: seq<Token>, spent: set<string>, now: real) {
    forall k: nat :: k < |issued| ==> Retained(issued, store, spent, now, k)
  }

  /** The store is the history with some tokens struck out. */
  ghost predicate Sound(issued: seq<Token>, store: seq<Token>, spent: set<string>, now: real) {
    && |store| <= MAX_ENTRIES
    && Distinct(issued) && AgeOrdered(issued, now)
    && store == Kept(issued, Ids(store))
    && (forall t :: t in store ==> t.token !in spent)
  }

  lemma Narrow(issued: seq<Token>, store: seq<Token>, alive: set<string>)
    requires store == Kept(issued, Ids(store)) && alive <= Ids(store)
    ensures Ids(Kept(store, alive)) == alive
    ensures Kept(store, alive) == Kept(issued, alive)
  {
    KeptMembers(store, alive);
    KeptTwice(issued, Ids(store), alive);
    assert Ids(store) * alive == alive;
  }

  lemma PopNext(s: seq<Token>, keys: seq<string>, i: nat)
    requires i < |keys|
    ensures Pop(Kept(s, Ids(s) - Keys(keys[..i])), keys[i]) == Kept(s, Ids(s) - Keys(keys[..i + 1]))
  {
    var gone, token := Keys(keys[..i]), keys[i];
    assert keys[..i + 1] == keys[..i] + [token];
    assert Keys(keys[..i + 1]) == gone + {token};
    var left := Kept(s, Ids(s) - gone);
    KeptMembers(s, Ids(s) - gone);
    KeptTwice(s, Ids(s) - gone, Ids(left) - {token});
    KeptSame(s, (Ids(s) - gone) * (Ids(left) - {token}), Ids(s) - (gone + {token}));
  }

  function Keys(keys: seq<string>): set<string> {
    set k | k in keys
  }

  lemma PurgedIsFresh(s: seq<Token>, expired: seq<string>, now: real)
    requires forall t :: t in s ==> (t.token in expired <==> !Young(t, now))
    ensures Kept(s, Ids(s) - Keys(expired)) == Fresh(s, now)
  {
    var young := set t | t in s && Young(t, now) :: t.token;
    forall t | t in s ensures t.token in Ids(s) - Keys(expired) <==> t.token in young {
      if t.token in young {
        var u :| u in s && Young(u, now) && u.token == t.token;
      }
    }
    KeptSame(s, Ids(s) - Keys(expired), young);
  }

  lemma Purges(issued: seq<Token>, store: seq<Token>, spent: set<string>, clock: real, now: real)
    requires Sound(issued, store, spent, clock) && AllRetained(issued, store, spent, clock) && clock <= now
    ensures Sound(issued, Fresh(store, now), spent, now) && AllRetained(issued, Fresh(store, now), spent, now)
  {
    var young := set t | t in store && Young(t, now) :: t.token;
    Narrow(issued, store, young);
    KeptMembers(store, young);
    forall k: nat | k < |issued| ensures Retained(issued, Fresh(store, now), spent, now, k) {
      assert Retained(issued, store, spent, clock, k);
      if Young(issued[k], now) && issued[k] in store {
        assert issued[k].token in young;
      }
    }
  }

  lemma EvictsFirst(issued: seq<Token>, store: seq<Token>, spent: set<string>, now: real, k: nat)
    requires Distinct(issued) && store == Kept(issued, Ids(store)) && |store| >= MAX_ENTRIES
    requires k < |issued| && Retained(issued, store, spent, now, k)
    ensures Retained(issued, store[1..], spent, now, k) || |issued| - k >= MAX_ENTRIES
  {
    if issued[k] == store[0] {
      KeptFromHead(issued, Ids(store), k);
    } else {
      assert store == [store[0]] + store[1..];
    }
  }

  lemma Evicts(issued: seq<Token>, store: seq<Token>, spent: set<string>, now: real)
    requires Sound(issued, store, spent, now) && AllRetained(issued, store, spent, now)
    ensures |Room(store)| < MAX_ENTRIES && Sound(issued, Room(store), spent, now)
    ensures forall k: nat :: k < |issued| ==>
      Retained(issued, Room(store), spent, now, k) || |issued| - k >= MAX_ENTRIES
  {
    if |store| >= MAX_ENTRIES {
      KeptOrder(issued, Ids(store), now);
      KeptTail(store);
      Narrow(issued, store, Ids(store) - {store[0].token});
      forall k: nat | k < |issued|
        ensures Retained(issued, Room(store), spent, now, k) || |issued| - k >= MAX_ENTRIES
      {
        EvictsFirst(issued, store, spent, now, k);
      }
    } else {
      forall k: nat | k < |issued| ensures Retained(issued, Room(store), spent, now, k) {
        assert Retained(issued, store, spent, now, k);
      }
    }
  }

  lemma AppendsSound(issued: seq<Token>, store: seq<Token>, spent: set<string>, now: real, t: Token)
    requires Sound(issued, store, spent, now) && |store| < MAX_ENTRIES
    requires t.createdAt == now && forall i :: 0 <= i < |issued| ==> issued[i].token != t.token
    ensures Sound(issued + [t], store + [t], spent - {t.token}, now)
  {
    assert Ids(store + [t]) == Ids(store) + {t.token};
    KeptAppend(issued, t, Ids(store + [t]));
    KeptSame(issued, Ids(store + [t]), Ids(store));
  }

  lemma Appends(issued: seq<Token>, store: seq<Token>, spent: set<string>, now: real, t: Token)
    requires forall k: nat :: k < |issued| ==>
      Retained(issued, store, spent, now, k) || |issued| - k >= MAX_ENTRIES
    requires forall i :: 0 <= i < |issued| ==> issued[i].token != t.token
    ensures AllRetained(issued + [t], store + [t], spent - {t.token}, now)
  {
    var issued', store' := issued + [t], store + [t];
    assert store'[|store|] == t;
    forall k: nat | k < |issued'| ensures Retained(issued', store', spent - {t.token}, now, k) {
      if k < |issued| {
        assert Retained(issued, store, spent, now, k) || |issued| - k >= MAX_ENTRIES;
        assert issued'[k] == issued[k];
      }
    }
  }

  lemma Pops(issued: seq<Token>, store: seq<Token>, spent: set<string>, now: real, token: string)
    requires Sound(issued, store, spent, now) && AllRetained(issued, store, spent, now)
    ensures Sound(issued, Pop(store, token), spent + {token}, now)
    ensures AllRetained(issued, Pop(store, token), spent + {token}, now)
  {
    Narrow(issued, store, Ids(store) - {token});
    KeptMembers(store, Ids(store) - {token});
    forall k: nat | k < |issued| ensures Retained(issued, Pop(store, token), spent + {token}, now, k) {
      assert Retained(issued, store, spent, now, k);
    }
  }

  lemma {:induction false} IssuedMembers(events: seq<Event>)
    ensures forall t :: t in Issued(events) <==> Issue(t.token, t.ip, t.createdAt) in events
  {
    if events != [] {
      IssuedMembers(events[..|events| - 1]);
      assert events == events[..|events| - 1] + [events[|events| - 1]];
    }
  }

  lemma StepKeeps(events: seq<Event>, e: Event, clock: real)
    requires Legal(events + [e]) && clock <= e.now
    requires Sound(Issued(events), StoreAfter(events), Spent(events), clock)
    requires AllRetained(Issued(events), StoreAfter(events), Spent(events), clock)
    ensures Sound(Issued(events + [e]), StoreAfter(events + [e]), Spent(events + [e]), e.now)
    ensures AllRetained(Issued(events + [e]), StoreAfter(events + [e]), Spent(events + [e]), e.now)
  {
    var issued, store, spent := Issued(events), StoreAfter(events), Spent(events);
    assert (events + [e])[..|events|] == events;
    Purges(issued, store, spent, clock, e.now);
    if e.Issue? {
      var t := Token(e.token, e.ip, e.now);
      IssuedMembers(events);
      forall i | 0 <= i < |issued| ensures issued[i].token != t.token {
        var u := issued[i];
        assert u in issued;
        var j :| 0 <= j < |events| && events[j] == Issue(u.token, u.ip, u.createdAt);
        assert (events + [e])[j] == events[j] && (events + [e])[|events|] == e;
      }
      Evicts(issued, Fresh(store, e.now), spent, e.now);
      AppendsSound(issued, Room(Fresh(store, e.now)), spent, e.now, t);
      Appends(issued, Room(Fresh(store, e.now)), spent, e.now, t);
    } else {
      Pops(issued, Fresh(store, e.now), spent, e.now, e.token);
      assert Issued(events + [e]) == issued;
    }
  }

  /** After any run the store holds at most 500 tokens, all of them issued,
      unspent and in issue order, and it has dropped an unspent unexpired token
      only if 500 were issued after it. */
  lemma {:induction false} RunKeeps(events: seq<Event>, now: real)
    requires Legal(events) && forall i :: 0 <= i < |events| ==> events[i].now <= now
    ensures Sound(Issued(events), StoreAfter(events), Spent(events), now)
    ensures AllRetained(Issued(events), StoreAfter(events), Spent(events), now)
    ensures |StoreAfter(events)| <= 500
  {
    if events != [] {
      var init, e := events[..|events| - 1], events[|events| - 1];
      RunKeeps(init, e.now);
      assert init + [e] == events;
      StepKeeps(init, e, e.now);
      KeepsLater(Issued(events), StoreAfter(events), Spent(events), e.now, now);
    }
  }

  lemma KeepsLater(issued: seq<Token>, store: seq<Token>, spent: set<string>, clock: real, now: real)
    requires Sound(issued, store, spent, clock) && AllRetained(issued, store, spent, clock) && clock <= now
    ensures Sound(issued, store, spent, now) && AllRetained(issued, store, spent, now)
  {
    forall k: nat | k < |issued| ensures Retained(issued, store, spent, now, k) {
      assert Retained(issued, store, spent, clock, k);
    }
  }

  // ----- what a caller sees -----

  ghost predicate IssuedTo(issued: seq<Token>, k: nat, token: string, ip: string) {
    k < |issued| && issued[k].token == token && issued[k].ip == ip
  }

  /** Every event throws out what has expired, so that no stored token is more
      than 60 seconds old when it ends, and a presented token is gone. */
  lemma StoredAreFresh(events: seq<Event>, e: Event)
    requires Legal(events + [e])
    ensures forall t :: t in StoreAfter(events + [e]) ==>
      && e.now - t.createdAt <= 60.0
      && Issue(t.token, t.ip, t.createdAt) in events + [e]
      && (e.Consume? ==> t.token != e.token)
  {
    LegalBefore(events, e);
    DistinctStore(events, e.now);
    EventLeavesFresh(StoreAfter(events), e);
    StoreNext(events, e);
    StoredWereIssued(events + [e], e.now);
  }

  lemma StoreNext(events: seq<Event>, e: Event)
    ensures StoreAfter(events + [e]) == AfterEvent(StoreAfter(events), e)
  {
    assert (events + [e])[..|events|] == events;
  }

  lemma DistinctStore(events: seq<Event>, now: real)
    requires Legal(events) && forall i :: 0 <= i < |events| ==> events[i].now <= now
    ensures Distinct(StoreAfter(events))
  {
    RunKeeps(events, now);
    KeptOrder(Issued(events), Ids(StoreAfter(events)), now);
  }

  lemma EventLeavesFresh(s: seq<Token>, e: Event)
    requires Distinct(s)
    ensures forall t :: t in AfterEvent(s, e) ==>
      e.now - t.createdAt <= 60.0 && (e.Consume? ==> t.token != e.token)
  {
    var young := Fresh(s, e.now);
    KeptMembers(s, set t | t in s && Young(t, e.now) :: t.token);
    assert forall t :: t in young ==> e.now - t.createdAt <= 60.0;
    if e.Consume? {
      KeptMembers(young, Ids(young) - {e.token});
    }
  }

  lemma StoredWereIssued(events: seq<Event>, now: real)
    requires Legal(events) && forall i :: 0 <= i < |events| ==> events[i].now <= now
    ensures forall t :: t in StoreAfter(events) ==> Issue(t.token, t.ip, t.createdAt) in events
  {
    RunKeeps(events, now);
    IssuedMembers(events);
    KeptMembers(Issued(events), Ids(StoreAfter(events)));
  }

  /** A token is accepted only from the address it was issued to, within its
      lifetime and before anyone else presented it. */
  lemma AcceptedOnlyIf(events: seq<Event>, token: string, ip: string, now: real) returns (k: nat)
    requires Legal(events + [Consume(token, ip, now)])
    requires Accepts(StoreAfter(events), token, ip, now)
    ensures IssuedTo(Issued(events), k, token, ip) && now - Issued(events)[k].createdAt <= 60.0
    ensures Issue(token, ip, Issued(events)[k].createdAt) in events
    ensures token !in Spent(events)
  {
    LegalBefore(events, Consume(token, ip, now));
    StoredWereIssued(events, now);
    var store := StoreAfter(events);
    KeptMembers(store, set t | t in store && Young(t, now) :: t.token);
    var t :| t in Fresh(store, now) && t.token == token && t.ip == ip && Young(t, now);
    k := PlaceOf(events, t, now);
  }

  lemma PlaceOf(events: seq<Event>, t: Token, now: real) returns (k: nat)
    requires Legal(events) && forall i :: 0 <= i < |events| ==> events[i].now <= now
    requires t in StoreAfter(events)
    ensures k < |Issued(events)| && Issued(events)[k] == t && t.token !in Spent(events)
  {
    RunKeeps(events, now);
    KeptMembers(Issued(events), Ids(StoreAfter(events)));
    k :| 0 <= k < |Issued(events)| && Issued(events)[k] == t;
  }

  /** And such a token is accepted while fewer than 500 were issued after it. */
  lemma AcceptedIf(events: seq<Event>, token: string, ip: string, now: real, k: nat)
    requires Legal(events + [Consume(token, ip, now)])
    requires IssuedTo(Issued(events), k, token, ip) && now - Issued(events)[k].createdAt <= 60.0
    requires token !in Spent(events) && |Issued(events)| - 1 - k < 500
    ensures Accepts(StoreAfter(events), token, ip, now)
  {
    LegalBefore(events, Consume(token, ip, now));
    RunKeeps(events, now);
    var store, t := StoreAfter(events), Issued(events)[k];
    assert Retained(Issued(events), store, Spent(events), now, k);
    KeptMembers(store, set u | u in store && Young(u, now) :: u.token);
    assert t in Fresh(store, now);
  }

  lemma LegalBefore(events: seq<Event>, e: Event)
    requires Legal(events + [e])
    ensures Legal(events) && forall i :: 0 <= i < |events| ==> events[i].now <= e.now
  {
    var all := events + [e];
    assert forall i :: 0 <= i < |events| ==> all[i] == events[i];
    assert all[|events|] == e;
  }

  ghost predicate WasIssued(events: seq<Event>, token: string) {
    exists t :: t in Issued(events) && t.token == token
  }

  lemma NotIssuedAgain(events: seq<Event>, i: nat, n: nat, token: string)
    requires Legal(events) && i <= n < |events| && events[n].Issue? && WasIssued(events[..i], token)
    ensures events[n].token != token
  {
    IssuedMembers(events[..i]);
    var t :| t in Issued(events[..i]) && t.token == token;
    var j :| 0 <= j < i && events[..i][j] == Issue(t.token, t.ip, t.createdAt);
    assert events[j].Issue? && events[j].token == token;
  }

  /** A token that was issued and then presented stays spent. */
  lemma {:induction false} StaysSpent(events: seq<Event>, i: nat)
    requires Legal(events) && i < |events| && events[i].Consume? && WasIssued(events[..i], events[i].token)
    ensures events[i].token in Spent(events)
  {
    var init, last := events[..|events| - 1], events[|events| - 1];
    if i < |init| {
      assert init[..i] == events[..i];
      StaysSpent(init, i);
      if last.Issue? {
        NotIssuedAgain(events, i, |init|, events[i].token);
      }
    }
  }

  ghost predicate AcceptedAt(events: seq<Event>, i: nat) {
    && i < |events| && events[i].Consume?
    && Accepts(StoreAfter(events[..i]), events[i].token, events[i].ip, events[i].now)
  }

  lemma AcceptedWasFresh(events: seq<Event>, j: nat)
    requires Legal(events) && AcceptedAt(events, j)
    ensures events[j].token !in Spent(events[..j]) && WasIssued(events[..j], events[j].token)
  {
    var e := events[j];
    assert events[..j] + [Consume(e.token, e.ip, e.now)] == events[..j + 1];
    var k := AcceptedOnlyIf(events[..j], e.token, e.ip, e.now);
    assert Issued(events[..j])[k] in Issued(events[..j]);
  }

  /** In any run, a presentation of an issued token, right or wrong, is the last
      chance for that token. */
  lemma OneChance(events: seq<Event>, i: nat, j: nat)
    requires Legal(events) && i < j < |events|
    requires events[i].Consume? && WasIssued(events[..i], events[i].token)
    requires AcceptedAt(events, j)
    ensures events[j].token != events[i].token
  {
    var before := events[..j];
    assert before[..i] == events[..i];
    StaysSpent(before, i);
    AcceptedWasFresh(events, j);
  }

  /** No token opens two streams. */
  lemma AcceptedOnce(events: seq<Event>, i: nat, j: nat)
    requires Legal(events) && i < j && AcceptedAt(events, i) && AcceptedAt(events, j)
    ensures events[i].token != events[j].token
  {
    AcceptedWasFresh(events, i);
    OneChance(events, i, j);
  }

  function Last(s: seq<Token>): seq<Token> {
    if |s| <= 500 then s else s[|s| - 500..]
  }

  lemma LastNext(s: seq<Token>, t: Token)
    ensures Room(Last(s)) + [t] == Last(s + [t])
  {
  }

  lemma AllYoung(s: seq<Token>, now: real)
    requires forall t :: t in s ==> Young(t, now)
    ensures Fresh(s, now) == s
  {
    KeptSame(s, set t | t in s && Young(t, now) :: t.token, Ids(s));
    KeptAll(s);
  }

  /** The 500th token issued after one does evict it: while tokens are only
      issued and none expires, the store is exactly the last 500. */
  lemma {:induction false} OnlyTheLastStay(events: seq<Event>, now: real)
    requires forall e :: e in events ==> e.Issue? && now - e.now <= 60.0 && e.now <= now
    ensures StoreAfter(events) == Last(Issued(events))
  {
    if events != [] {
      var init, e := events[..|events| - 1], events[|events| - 1];
      OnlyTheLastStay(init, now);
      IssuedMembers(init);
      forall t | t in StoreAfter(init) ensures Young(t, e.now) {
        assert t in Issued(init);
        assert Issue(t.token, t.ip, t.createdAt) in init;
      }
      AllYoung(StoreAfter(init), e.now);
      LastNext(Issued(init), Token(e.token, e.ip, e.now));
    }
  }

  // ----- the store -----

  class TokenStore {
    var tokens: seq<Token>
    ghost var events: seq<Event>

    ghost predicate Valid()
      reads this
    {
      Legal(events) && tokens == StoreAfter(events)
    }

    constructor ()
      ensures Valid() && events == []
    {
      tokens, events := [], [];
    }

    static method ExpiredKeys(s: seq<Token>, now: real) returns (expired: seq<string>)
      requires Distinct(s)
      ensures forall t :: t in s ==> (t.token in expired <==> !Young(t, now))
    {
      expired := [];
      for i := 0 to |s|
        invariant forall j :: 0 <= j < i ==> (s[j].token in expired <==> !Young(s[j], now))
        invariant forall id :: id in expired ==> exists j :: 0 <= j < i && s[j].token == id
      {
        if now - s[i].createdAt > TTL_SECONDS {
          expired := expired + [s[i].token];
        }
      }
    }

    /** Collect the expired keys, then pop each. */
    method PurgeExpired(now: real)
      requires Distinct(tokens)
      modifies this`tokens
      ensures tokens == Fresh(old(tokens), now)
    {
      var expired := ExpiredKeys(tokens, now);
      ghost var before := tokens;
      KeptAll(before);
      assert Ids(before) - Keys(expired[..0]) == Ids(before);
      for i := 0 to |expired|
        invariant tokens == Kept(before, Ids(before) - Keys(expired[..i]))
      {
        PopNext(before, expired, i);
        tokens := Pop(tokens, expired[i]);
      }
      assert expired[..|expired|] == expired;
      PurgedIsFresh(before, expired, now);
    }

    /** The first entry with the least creation time. */
    static method Oldest(s: seq<Token>) returns (m: nat)
      requires s != []
      ensures m < |s| && forall i :: 0 <= i < |s| ==> s[m].createdAt <= s[i].createdAt
      ensures forall i :: 0 <= i < m ==> s[m].createdAt < s[i].createdAt
    {
      m := 0;
      for i := 1 to |s|
        invariant m < i && forall j :: 0 <= j < i ==> s[m].createdAt <= s[j].createdAt
        invariant forall j :: 0 <= j < m ==> s[m].createdAt < s[j].createdAt
      {
        if s[i].createdAt < s[m].createdAt { m := i; }
      }
    }

    /** Issue a never used token. */
    method IssueToken(token: string, ip: string, now: real)
      requires Valid() && Legal(events + [Issue(token, ip, now)])
      modifies this
      ensures Valid() && events == old(events) + [Issue(token, ip, now)]
      ensures tokens == old(AfterEvent(tokens, Issue(token, ip, now)))
    {
      LegalBefore(events, Issue(token, ip, now));
      RunKeeps(events, now);
      KeptOrder(Issued(events), Ids(tokens), now);
      Purges(Issued(events), tokens, Spent(events), now, now);
      PurgeExpired(now);
      KeptOrder(Issued(events), Ids(tokens), now);
      if |tokens| >= MAX_ENTRIES {
        var oldest := Oldest(tokens);
        KeptTail(tokens);
        tokens := Pop(tokens, tokens[oldest].token);
      }
      tokens := tokens + [Token(token, ip, now)];
      events := events + [Issue(token, ip, now)];
      assert events[..|events| - 1] == old(events);
    }

    /** Take a token out of the store and say whether it opens a stream. */
    method ConsumeToken(token: string, ip: string, now: real) returns (accepted: bool)
      requires Valid() && Legal(events + [Consume(token, ip, now)])
      modifies this
      ensures Valid() && events == old(events) + [Consume(token, ip, now)]
      ensures tokens == old(AfterEvent(tokens, Consume(token, ip, now)))
      ensures accepted <==> old(Accepts(tokens, token, ip, now))
    {
      LegalBefore(events, Consume(token, ip, now));
      RunKeeps(events, now);
      KeptOrder(Issued(events), Ids(tokens), now);
      Purges(Issued(events), tokens, Spent(events), now, now);
      PurgeExpired(now);
      KeptOrder(Issued(events), Ids(tokens), now);
      var entry := Find(tokens, token);
      tokens := Pop(tokens, token);
      events := events + [Consume(token, ip, now)];
      assert events[..|events| - 1] == old(events);
      if entry.None? { return false; }
      if entry.value.ip != ip { return false; }
      if now - entry.value.createdAt > TTL_SECONDS { return false; }
      return true;
    }

    static method Find(s: seq<Token>, token: string) returns (entry: Option<Token>)
      requires Distinct(s)
      ensures entry.Some? ==> entry.value in s && entry.value.token == token
      ensures forall t :: t in s && t.token == token ==> entry == Some(t)
    {
      for i := 0 to |s|
        invariant forall j :: 0 <= j < i ==> s[j].token != token
      {
        if s[i].token == token { return Some(s[i]); }
      }
      return None;
    }
  }
}
