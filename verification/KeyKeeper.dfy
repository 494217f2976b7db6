// The keeping of a group's keys (gdoi/keeper.go) in the store a session sends
// and receives with (rsession/keys.go).
//
// Everything runs under the member's lock. A registration is installed one
// key at a time; activations and removals are timer callbacks, so they come in
// any order and late. Times are instants; no expiry means the key never ends.

module KeyKeeper {
  import opened Options
  import opened Octets
  import opened SessionKeys

  type SPI = uint32

  datatype Installed = Installed(activates: int, expires: Option<int>, added: bool, active: bool)

  // A key of a registration, with the session key it makes, if the session
  // layer implements its algorithms.
  datatype TEK = TEK(spi: SPI, key: Option<Key>, delay: int, lifetime: int)

  datatype State = State(keys: map<SPI, Installed>, store: map<SPI, Key>, active: SPI)

  datatype Action =
    | List(tek: TEK, received: int)
    | Activate(spi: SPI, key: Key)
    | Remove(spi: SPI)

  predicate LaterExpiry(a: Option<int>, b: Option<int>)
  {
    if a.None? then b.Some? else b.Some? && a.value > b.value
  }

  predicate Better(a: Installed, b: Installed)
  {
    a.activates > b.activates || (a.activates == b.activates && LaterExpiry(a.expires, b.expires))
  }

  ghost predicate Best(keys: map<SPI, Installed>, b: SPI)
  {
    && b in keys && keys[b].added
    && forall spi | spi in keys && keys[spi].added :: !Better(keys[spi], keys[b])
  }

  // The steps. Go goes through a map in no particular order, so the choice of
  // the active key is a relation.

  function Marked(keys: map<SPI, Installed>, b: Option<SPI>): map<SPI, Installed>
  {
    map spi | spi in keys :: keys[spi].(active := b == Some(spi))
  }

  ghost predicate NoneAdded(keys: map<SPI, Installed>)
  {
    forall spi | spi in keys :: !keys[spi].added
  }

  ghost predicate Picked(s: State, b: SPI, t: State)
  {
    Best(s.keys, b) && t == State(Marked(s.keys, Some(b)), s.store, if b in s.store then b else s.active)
  }

  ghost predicate Chose(s: State, t: State)
  {
    if NoneAdded(s.keys) then t == s.(keys := Marked(s.keys, None))
    else exists b: SPI :: Picked(s, b, t)
  }

  function Listed(s: State, tek: TEK, received: int): State
  {
    if tek.key.None? then s
    else
      var ik := if tek.spi in s.keys then s.keys[tek.spi] else Installed(received + tek.delay, None, false, false);
      var expires := if tek.lifetime > 0 then Some(received + tek.lifetime) else None;
      s.(keys := s.keys[tek.spi := ik.(expires := expires)])
  }

  // A whole registration, before what it does not list is removed.
  function ListedAll(s: State, teks: seq<TEK>, received: int): State
  {
    if teks == [] then s
    else Listed(ListedAll(s, teks[..|teks| - 1], received), teks[|teks| - 1], received)
  }

  // Nothing but the mark of the key sent with is different.
  predicate SameKey(a: Installed, b: Installed)
  {
    a.(active := b.active) == b
  }

  ghost predicate SameKeys(a: map<SPI, Installed>, b: map<SPI, Installed>)
  {
    forall spi | spi in a :: spi in b && SameKey(a[spi], b[spi])
  }

  function Added(s: State, spi: SPI, k: Key): State
    requires spi in s.keys
  {
    s.(keys := s.keys[spi := s.keys[spi].(added := true)], store := s.store[k.id := k])
  }

  function Dropped(s: State, spi: SPI): State
  {
    State(s.keys - {spi}, s.store - {spi}, if s.active == spi then 0 else s.active)
  }

  ghost predicate Next(s: State, a: Action, t: State)
  {
    match a
    case List(tek, received) => t == Listed(s, tek, received)
    case Activate(spi, k) =>
      if spi !in s.keys || s.keys[spi].added || Validate(k).Invalid? then t == s
      else Chose(Added(s, spi, k), t)
    case Remove(spi) =>
      if spi !in s.keys then t == s
      else if !s.keys[spi].added then t == s.(keys := s.keys - {spi})
      else if s.keys[spi].active then Chose(Dropped(s, spi), t)
      else t == Dropped(s, spi)
  }

  // What every step keeps

  // The store holds exactly the keys marked as added, under their own SPIs
  // and fit for use; a key is sent with exactly when there is one, and then it
  // is one activated no earlier than any other.
  ghost predicate Inv(s: State)
  {
    && (forall spi :: spi in s.store <==> spi in s.keys && s.keys[spi].added)
    && (forall spi | spi in s.store :: s.store[spi].id == spi && Validate(s.store[spi]).Valid?)
    && (forall spi | spi in s.keys :: s.keys[spi].active <==> s.keys[spi].added && spi == s.active)
    && (s.active == 0 <==> s.store == map[])
    && (s.active != 0 ==> s.active in s.store && Newest(s.keys, s.active))
  }

  ghost predicate Newest(keys: map<SPI, Installed>, b: SPI)
    requires b in keys
  {
    forall spi | spi in keys && keys[spi].added :: keys[spi].activates <= keys[b].activates
  }

  // What holds between a change of the store and the choice that follows it.
  ghost predicate Unchosen(s: State)
  {
    && (forall spi :: spi in s.store <==> spi in s.keys && s.keys[spi].added)
    && (forall spi | spi in s.store :: s.store[spi].id == spi && Validate(s.store[spi]).Valid?)
    && (s.active != 0 ==> s.active in s.store)
  }

  lemma ChoiceRestores(s: State, t: State)
    requires Unchosen(s) && Chose(s, t)
    ensures Inv(t)
    ensures t.store == s.store
    ensures t.active != 0 ==> Best(t.keys, t.active)
  {
    hide Validate, Better, Best, Newest;
    if NoneAdded(s.keys) {
      assert s.store.Keys == {};
    } else {
      var b: SPI :| Picked(s, b, t);
      PickedIsNewest(s, b, t);
    }
  }

  lemma PickedIsNewest(s: State, b: SPI, t: State)
    requires Unchosen(s) && Picked(s, b, t)
    ensures b in s.store && b != 0 && b in t.keys && Newest(t.keys, b) && Best(t.keys, b)
  {
    hide Validate;
    assert b in s.store;
    assert Validate(s.store[b]).Valid? && s.store[b].id == b;
    StoredNotZero(s.store[b]);
  }

  lemma StoredNotZero(k: Key)
    requires Validate(k).Valid?
    ensures k.id != 0
  {}

  lemma StepKeeps(s: State, a: Action, t: State)
    requires Inv(s) && Next(s, a, t)
    requires a.Activate? ==> a.key.id == a.spi
    ensures Inv(t)
  {
    hide Validate, Chose, Better, Marked;
    match a
    case List(tek, received) =>
    case Activate(spi, k) =>
      if spi in s.keys && !s.keys[spi].added && Validate(k).Valid? {
        ChoiceRestores(Added(s, spi, k), t);
      }
    case Remove(spi) => RemovalKeeps(s, spi, t);
  }

  lemma RemovalKeeps(s: State, spi: SPI, t: State)
    requires Inv(s) && Next(s, Remove(spi), t)
    ensures Inv(t)
  {
    hide Validate, Chose, Better, Marked;
    if spi in s.keys && s.keys[spi].added {
      if s.keys[spi].active {
        ChoiceRestores(Dropped(s, spi), t);
      } else {
        assert s.active in t.store;
      }
    }
  }

  // Runs

  ghost predicate Run(states: seq<State>, actions: seq<Action>)
  {
    && |states| == |actions| + 1
    && states[0] == State(map[], map[], 0)
    && forall i | 0 <= i < |actions| ::
         && Next(states[i], actions[i], states[i + 1])
         && (actions[i].Activate? ==> actions[i].key.id == actions[i].spi)
  }

  lemma {:induction false} RunKeeps(states: seq<State>, actions: seq<Action>, n: nat)
    requires Run(states, actions) && n < |states|
    ensures Inv(states[n])
    decreases n
  {
    hide Inv, Next;
    if n == 0 {
      StartsEmpty();
    } else {
      RunKeeps(states, actions, n - 1);
      StepKeeps(states[n - 1], actions[n - 1], states[n]);
    }
  }

  lemma StartsEmpty()
    ensures Inv(State(map[], map[], 0))
  {}

  // Through any order of registrations, activations and removals, the store
  // holds exactly the keys marked as added, and the key sent with is one of
  // them, none of which was activated later; there is none only when the
  // store is empty.
  lemma StoreFollowsMember(states: seq<State>, actions: seq<Action>, n: nat)
    requires Run(states, actions) && n < |states|
    ensures
      var s := states[n];
      && s.store.Keys == (set spi | spi in s.keys && s.keys[spi].added)
      && (if s.store == map[] then s.active == 0
          else
            && s.active in s.store && s.store[s.active].id == s.active != 0
            && forall spi | spi in s.store :: s.keys[spi].activates <= s.keys[s.active].activates)
  {
    RunKeeps(states, actions, n);
  }

  // A removal takes a key out of use at once, whatever comes of the others.
  lemma RemovedIsGone(s: State, spi: SPI, t: State)
    requires Inv(s) && Next(s, Remove(spi), t)
    ensures spi !in t.store && spi !in t.keys && (t.active == spi ==> spi == 0)
    ensures forall other | other in s.store && other != spi :: other in t.store && t.store[other] == s.store[other]
  {
    StepKeeps(s, Remove(spi), t);
  }

  // An activation puts a key in use unless it is unknown, already in use or
  // unfit, and then one that no key is preferred to is sent with.
  lemma ActivatedIsStored(s: State, spi: SPI, k: Key, t: State)
    requires Inv(s) && k.id == spi && Next(s, Activate(spi, k), t)
    ensures spi in t.store <==> spi in s.store || (spi in s.keys && Validate(k).Valid?)
    ensures spi in t.store && spi !in s.store ==> t.store == s.store[spi := k] && Best(t.keys, t.active)
    ensures spi in s.store ==> t == s
  {
    if spi in s.keys && !s.keys[spi].added && Validate(k).Valid? {
      assert Unchosen(Added(s, spi, k));
      ChoiceRestores(Added(s, spi, k), t);
    }
  }

  // A key that none is preferred to: none in use was to be activated later, and of
  // those to be activated with it none lives longer.
  lemma BestExactly(keys: map<SPI, Installed>, b: SPI)
    ensures
      Best(keys, b) <==>
      && b in keys && keys[b].added
      && forall spi | spi in keys && keys[spi].added ::
           && keys[spi].activates <= keys[b].activates
           && (keys[spi].activates == keys[b].activates ==>
                 keys[b].expires.None? || (keys[spi].expires.Some? && keys[spi].expires.value <= keys[b].expires.value))
  {}

  // The step lists a key the session layer can use.
  predicate Lists(a: Action, spi: SPI) { a.List? && a.tek.spi == spi && a.tek.key.Some? }

  // What a step makes of the times of a key it leaves known.
  lemma TimesStep(s: State, a: Action, t: State, spi: SPI)
    requires Next(s, a, t) && spi in t.keys
    ensures Lists(a, spi) ==>
      && t.keys[spi].activates == (if spi in s.keys then s.keys[spi].activates else a.received + a.tek.delay)
      && t.keys[spi].expires == (if a.tek.lifetime > 0 then Some(a.received + a.tek.lifetime) else None)
    ensures !Lists(a, spi) ==>
      spi in s.keys && t.keys[spi].activates == s.keys[spi].activates && t.keys[spi].expires == s.keys[spi].expires
    ensures a != Remove(spi)
  {
    hide Best, Validate;
  }

  // In every run, a known key is to be activated when the registration that made
  // it known said, counted from its receipt, whatever listed it since; and it
  // expires when the last one to list it said, or never.
  lemma {:induction false} TimesOfKey(states: seq<State>, actions: seq<Action>, n: nat, spi: SPI)
    returns (first: nat, last: nat)
    requires Run(states, actions) && n < |states| && spi in states[n].keys
    ensures first <= last < n && Lists(actions[first], spi) && Lists(actions[last], spi)
    ensures spi !in states[first].keys && forall k | first < k <= n :: spi in states[k].keys
    ensures forall k | last < k < n :: !Lists(actions[k], spi)
    ensures states[n].keys[spi].activates == actions[first].received + actions[first].tek.delay
    ensures
      var tek, received := actions[last].tek, actions[last].received;
      states[n].keys[spi].expires == if tek.lifetime > 0 then Some(received + tek.lifetime) else None
    decreases n
  {
    hide Next;
    NotAtFirst(states, actions, n, spi);
    var a := actions[n - 1];
    TimesStep(states[n - 1], a, states[n], spi);
    if spi in states[n - 1].keys {
      first, last := TimesOfKey(states, actions, n - 1, spi);
      if Lists(a, spi) {
        last := n - 1;
      }
    } else {
      first, last := n - 1, n - 1;
    }
  }

  lemma NotAtFirst(states: seq<State>, actions: seq<Action>, n: nat, spi: SPI)
    requires Run(states, actions) && n < |states| && spi in states[n].keys
    ensures n > 0 && Next(states[n - 1], actions[n - 1], states[n])
  {
    hide Next;
  }

  // Registrations

  function NewExpiry(tek: TEK, received: int): Option<int>
  {
    if tek.lifetime > 0 then Some(received + tek.lifetime) else None
  }

  // The expiry the last of these to list the key gives it, or the one it had.
  function LastExpiry(teks: seq<TEK>, received: int, spi: SPI, before: Option<int>): Option<int>
  {
    if teks == [] then before
    else
      var tek := teks[|teks| - 1];
      if tek.spi == spi && tek.key.Some? then NewExpiry(tek, received)
      else LastExpiry(teks[..|teks| - 1], received, spi, before)
  }

  function SPIs(teks: seq<TEK>): set<SPI> { set t | t in teks :: t.spi }

  function Elems(order: seq<SPI>): set<SPI> { set spi | spi in order }

  // The unlisted keys of u removed one after the other, in this order.
  ghost predicate Sweeps(u: State, order: seq<SPI>, t: State)
    decreases |order|
  {
    if order == [] then t == u
    else
      var before, last := order[..|order| - 1], order[|order| - 1];
      exists m :: Sweeps(u, before, m) && Next(m, Remove(last), t)
  }

  ghost predicate Registered(s: State, teks: seq<TEK>, received: int, t: State)
  {
    var u := ListedAll(s, teks, received);
    exists order: seq<SPI> :: Elems(order) == u.keys.Keys - SPIs(teks) && Sweeps(u, order, t)
  }

  // A listed key in use comes to outlive the key sent with, on a tie, while
  // that key stays listed.
  ghost predicate Upsets(s: State, teks: seq<TEK>, received: int)
    requires s.active in s.keys
  {
    var active := s.keys[s.active];
    && s.active in SPIs(teks)
    && exists spi ::
         && spi in s.keys && s.keys[spi].added && spi in SPIs(teks)
         && s.keys[spi].activates == active.activates
         && LaterExpiry(LastExpiry(teks, received, spi, s.keys[spi].expires),
                        LastExpiry(teks, received, s.active, active.expires))
  }

  lemma {:induction false} ListedAllKeeps(s: State, teks: seq<TEK>, received: int)
    requires Inv(s)
    ensures
      var u := ListedAll(s, teks, received);
      && Inv(u) && u.store == s.store && u.active == s.active
      && (forall spi | spi in s.keys ::
            && spi in u.keys
            && u.keys[spi] == s.keys[spi].(expires := LastExpiry(teks, received, spi, s.keys[spi].expires)))
      && (forall spi | spi in u.keys && spi !in s.keys :: !u.keys[spi].added)
    decreases |teks|
  {
    hide Inv;
    if teks != [] {
      var before := teks[..|teks| - 1];
      ListedAllKeeps(s, before, received);
      ListedKeeps(ListedAll(s, before, received), teks[|teks| - 1], received);
    }
  }

  lemma ListedKeeps(s: State, tek: TEK, received: int)
    requires Inv(s)
    ensures Inv(Listed(s, tek, received)) && Listed(s, tek, received).store == s.store
  {
    StepKeeps(s, List(tek, received), Listed(s, tek, received));
  }

  // The keys in gone have been removed, and nothing else has happened; the key
  // sent with is the same unless it is one of them, and then one that none is
  // preferred to.
  ghost predicate Swept(s: State, gone: set<SPI>, t: State)
  {
    && Inv(t) && SameKeys(t.keys, s.keys)
    && t.keys.Keys == s.keys.Keys - gone
    && t.store == s.store - gone
    && (s.active !in gone ==> t.active == s.active)
    && (s.active in gone && t.active != 0 ==> Best(t.keys, t.active))
  }

  lemma {:induction false} SweepsRemove(s: State, order: seq<SPI>, t: State)
    requires Inv(s) && Sweeps(s, order, t)
    ensures Swept(s, Elems(order), t)
    decreases |order|
  {
    hide Inv, Next, Swept;
    if order == [] {
      Unswept(s);
      assert Elems(order) == {};
    } else {
      var spi := order[|order| - 1];
      var before := order[..|order| - 1];
      var m :| Sweeps(s, before, m) && Next(m, Remove(spi), t);
      SweepsRemove(s, before, m);
      SweptMore(s, Elems(before), m, spi, t);
      assert order == before + [spi];
      assert Elems(order) == Elems(before) + {spi};
    }
  }

  lemma Unswept(s: State)
    requires Inv(s)
    ensures Swept(s, {}, s)
  {
    hide Inv;
    assert s.store - {} == s.store;
  }

  lemma SweptMore(s: State, gone: set<SPI>, t: State, spi: SPI, u: State)
    requires Swept(s, gone, t) && Next(t, Remove(spi), u)
    ensures Swept(s, gone + {spi}, u)
  {
    hide Inv, Next, Best;
    RemovedOnly(t, spi, u);
    RemovalChooses(t, spi, u);
    assert s.store - gone - {spi} == s.store - (gone + {spi});
  }

  lemma RemovedOnly(s: State, spi: SPI, t: State)
    requires Inv(s) && Next(s, Remove(spi), t)
    ensures Inv(t) && t.keys.Keys == s.keys.Keys - {spi} && t.store == s.store - {spi}
    ensures SameKeys(t.keys, s.keys)
  {
    hide Inv;
    StepKeeps(s, Remove(spi), t);
    if spi !in s.keys || !s.keys[spi].added {
      StoredAreKnown(s);
    }
  }

  // Removing the key sent with makes a best choice; removing another leaves
  // it, and leaves it best if it was.
  lemma RemovalChooses(s: State, spi: SPI, t: State)
    requires Inv(s) && Next(s, Remove(spi), t)
    ensures spi != s.active ==> t.active == s.active && (Best(s.keys, s.active) ==> Best(t.keys, t.active))
    ensures spi == s.active != 0 ==> t.active == 0 || Best(t.keys, t.active)
    ensures s.active == 0 ==> t.active == 0
  {
    hide Validate, Chose, Better;
    if spi in s.keys && s.keys[spi].added && s.keys[spi].active {
      ChoiceRestores(Dropped(s, spi), t);
    }
  }

  lemma StoredAreKnown(s: State)
    requires Inv(s)
    ensures forall spi | spi in s.store :: spi in s.keys && s.keys[spi].added
  {}

  // After a registration, whatever it lists and in whatever order the rest is
  // removed, the store is what it was without the keys not listed, and the key
  // sent with is one that none is preferred to, the longest-lived on a tie,
  // exactly unless a tie is upset.
  lemma RegistrationEnds(s: State, teks: seq<TEK>, received: int, t: State)
    requires Inv(s) && Registered(s, teks, received, t)
    ensures Inv(t) && t.store == s.store - (s.store.Keys - SPIs(teks))
    ensures t.active != 0 ==> s.active in s.keys && (Best(t.keys, t.active) <==> !Upsets(s, teks, received))
  {
    hide Inv, Upsets, Best, SameKeys;
    var u := ListedAll(s, teks, received);
    ListedAllKeeps(s, teks, received);
    var order: seq<SPI> :| Elems(order) == u.keys.Keys - SPIs(teks) && Sweeps(u, order, t);
    SweepsRemove(u, order, t);
    StoredAreKnown(u);
    var gone := Elems(order);
    assert u.store - gone == s.store - (s.store.Keys - SPIs(teks));
    if t.active != 0 {
      ActiveKnown(s, t);
      if s.active in gone {
        NotListed(s, teks, received);
      } else {
        BestUnlessUpset(s, teks, received, u, t);
      }
    }
  }

  lemma ActiveKnown(s: State, t: State)
    requires Inv(s) && Inv(t) && t.active != 0 && t.store.Keys <= s.store.Keys
    ensures s.active in s.keys && s.active in s.store && s.active != 0
    ensures t.active in t.store && t.active in t.keys
  {
    hide Validate, Newest;
  }

  lemma NotListed(s: State, teks: seq<TEK>, received: int)
    requires s.active in s.keys && s.active !in SPIs(teks)
    ensures !Upsets(s, teks, received)
  {}

  // The key sent with is listed and stays in use.
  lemma BestUnlessUpset(s: State, teks: seq<TEK>, received: int, u: State, t: State)
    requires Inv(s) && u == ListedAll(s, teks, received) && s.active in s.keys && s.active != 0 && t.active == s.active
    requires Inv(t) && SameKeys(t.keys, u.keys) && t.keys.Keys == u.keys.Keys * SPIs(teks)
    requires forall spi | spi in s.keys ::
      spi in u.keys && u.keys[spi] == s.keys[spi].(expires := LastExpiry(teks, received, spi, s.keys[spi].expires))
    requires forall spi | spi in u.keys && spi !in s.keys :: !u.keys[spi].added
    ensures Best(t.keys, t.active) <==> !Upsets(s, teks, received)
  {
    hide Validate, LastExpiry, ListedAll;
    var b := t.active;
    assert b in t.store;
    assert Newest(s.keys, b);
    if Upsets(s, teks, received) {
      var spi :|
        && spi in s.keys && s.keys[spi].added && spi in SPIs(teks)
        && s.keys[spi].activates == s.keys[b].activates
        && LaterExpiry(LastExpiry(teks, received, spi, s.keys[spi].expires),
                       LastExpiry(teks, received, b, s.keys[b].expires));
      assert SameKey(t.keys[spi], u.keys[spi]) && SameKey(t.keys[b], u.keys[b]);
      assert Better(t.keys[spi], t.keys[b]);
    } else {
      forall spi | spi in t.keys && t.keys[spi].added
        ensures !Better(t.keys[spi], t.keys[b])
      {
        assert SameKey(t.keys[spi], u.keys[spi]) && SameKey(t.keys[b], u.keys[b]);
      }
    }
  }

  // Over runs

  // The step makes a choice of the key to send with.
  ghost predicate Chooses(s: State, a: Action)
  {
    match a
    case List(_, _) => false
    case Activate(spi, k) => spi in s.keys && !s.keys[spi].added && Validate(k).Valid?
    case Remove(spi) => spi in s.keys && s.keys[spi].added && s.keys[spi].active
  }

  // The expiry the last of these steps to list the key gives it, or the one
  // it had before them.
  function Since(actions: seq<Action>, spi: SPI, before: Option<int>): Option<int>
  {
    if actions == [] then before
    else
      var a := actions[|actions| - 1];
      if a.List? && a.tek.spi == spi && a.tek.key.Some? then NewExpiry(a.tek, a.received)
      else Since(actions[..|actions| - 1], spi, before)
  }

  // Between choices a key in use stays as it was but for its expiry.
  ghost predicate Renewed(s: State, actions: seq<Action>, t: State)
  {
    && t.active == s.active
    && forall spi | spi in t.store ::
         && spi in s.store && spi in s.keys && spi in t.keys
         && t.keys[spi] == s.keys[spi].(expires := Since(actions, spi, s.keys[spi].expires))
  }

  lemma {:induction false} BetweenChoices(states: seq<State>, actions: seq<Action>, c: nat, n: nat)
    requires Run(states, actions) && c <= n < |states|
    requires forall i | c <= i < n :: !Chooses(states[i], actions[i])
    ensures Renewed(states[c], actions[c..n], states[n])
    decreases n
  {
    hide Inv, Next, Since, Chooses;
    RunKeeps(states, actions, n);
    if c == n {
      StoredAreKnown(states[n]);
      NothingSince(actions[c..n]);
    } else {
      RunKeeps(states, actions, n - 1);
      BetweenChoices(states, actions, c, n - 1);
      assert actions[c..n] == actions[c..n - 1] + [actions[n - 1]];
      RenewedMore(states[c], actions[c..n - 1], states[n - 1], actions[n - 1], states[n]);
    }
  }

  lemma NothingSince(actions: seq<Action>)
    requires actions == []
    ensures forall spi, before :: Since(actions, spi, before) == before
  {}

  lemma RenewedMore(s: State, actions: seq<Action>, t: State, a: Action, u: State)
    requires Renewed(s, actions, t) && Inv(t) && Inv(u) && Next(t, a, u) && !Chooses(t, a)
    ensures Renewed(s, actions + [a], u)
  {
    hide Validate, Chose, Newest;
    assert (actions + [a])[..|actions|] == actions;
  }

  // In every run, as of the last choice: the key sent with is one that none is
  // preferred to, the longest-lived on a tie, exactly unless the registrations
  // since then have given another key in use, on a tie, the later expiry.
  lemma BestSinceChoice(states: seq<State>, actions: seq<Action>, c: nat, n: nat)
    requires Run(states, actions) && 0 < c <= n < |states|
    requires Chooses(states[c - 1], actions[c - 1])
    requires forall i | c <= i < n :: !Chooses(states[i], actions[i])
    ensures
      var s, t := states[c], states[n];
      && t.active == s.active && t.store.Keys <= s.store.Keys <= s.keys.Keys
      && (t.active != 0 ==>
            && t.active in t.store && t.active in s.keys && Best(s.keys, s.active)
            && (Best(t.keys, t.active) <==>
                  forall spi | spi in t.store && s.keys[spi].activates == s.keys[s.active].activates ::
                    !LaterExpiry(Since(actions[c..n], spi, s.keys[spi].expires),
                                 Since(actions[c..n], s.active, s.keys[s.active].expires))))
  {
    hide Inv, Next, Since, Chooses, Best;
    var s, t := states[c], states[n];
    RunKeeps(states, actions, c - 1);
    RunKeeps(states, actions, c);
    RunKeeps(states, actions, n);
    StoredAreKnown(s);
    BetweenChoices(states, actions, c, n);
    ChoiceIsBest(states[c - 1], actions[c - 1], s);
    if t.active != 0 {
      StillBest(s, actions[c..n], t);
    }
  }

  lemma ChoiceIsBest(s: State, a: Action, t: State)
    requires Inv(s) && Next(s, a, t) && Chooses(s, a) && (a.Activate? ==> a.key.id == a.spi)
    ensures t.active != 0 ==> Best(t.keys, t.active)
  {
    hide Validate, Chose, Best, Newest;
    if a.Activate? {
      ChoiceRestores(Added(s, a.spi, a.key), t);
    } else {
      ChoiceRestores(Dropped(s, a.spi), t);
    }
  }

  lemma StillBest(s: State, actions: seq<Action>, t: State)
    requires Inv(s) && Inv(t) && Renewed(s, actions, t) && t.active != 0 && Best(s.keys, s.active)
    ensures t.active in t.store && t.active in s.keys
    ensures
      Best(t.keys, t.active) <==>
      forall spi | spi in t.store && s.keys[spi].activates == s.keys[s.active].activates ::
        !LaterExpiry(Since(actions, spi, s.keys[spi].expires), Since(actions, s.active, s.keys[s.active].expires))
  {
    hide Validate, Since;
    var b := t.active;
    assert b in t.store;
    assert Newest(s.keys, b);
  }

  // A run in which a tie goes stale: keys 1 and 2 activate together, 1 with the
  // later expiry; then a registration listing both makes 2 the longer-lived, and
  // 1 is still sent with.
  lemma TieGoesStale(k1: Key, k2: Key) returns (states: seq<State>, actions: seq<Action>)
    requires k1.id == 1 && k2.id == 2 && Validate(k1).Valid? && Validate(k2).Valid?
    ensures Run(states, actions) && |actions| == 6
    ensures Best(states[4].keys, 1) && states[4].active == 1
    ensures Registered(states[4], [TEK(2, Some(k2), 0, 25), TEK(1, Some(k1), 0, 15)], 5, states[6])
    ensures states[6].active == 1 && !Best(states[6].keys, 1)
  {
    hide Listed, Best, Registered, Next, Validate;
    var s4, s5, s6 := StaleStates(k1, k2);
    var s1, s2, s3 := StaleBeginning(k1, k2, s4);
    var u1, u2 := TEK(1, Some(k1), 0, 15), TEK(2, Some(k2), 0, 25);
    ListedNext(s4, u2, 5);
    ListedNext(s5, u1, 5);
    actions :=
      [List(TEK(1, Some(k1), 0, 20), 0), List(TEK(2, Some(k2), 0, 10), 0), Activate(1, k1), Activate(2, k2),
       List(u2, 5), List(u1, 5)];
    states := [State(map[], map[], 0), s1, s2, s3, s4, s5, s6];
  }

  lemma ListedNext(s: State, tek: TEK, received: int)
    ensures Next(s, List(tek, received), Listed(s, tek, received))
  {}

  lemma StaleBeginning(k1: Key, k2: Key, s4: State) returns (s1: State, s2: State, s3: State)
    requires k1.id == 1 && k2.id == 2 && Validate(k1).Valid? && Validate(k2).Valid?
    requires s4 == State(
      map[1 := Installed(0, Some(20), true, true), 2 := Installed(0, Some(10), true, false)], map[1 := k1, 2 := k2], 1)
    ensures Next(State(map[], map[], 0), List(TEK(1, Some(k1), 0, 20), 0), s1)
    ensures Next(s1, List(TEK(2, Some(k2), 0, 10), 0), s2)
    ensures Next(s2, Activate(1, k1), s3) && Next(s3, Activate(2, k2), s4)
    ensures Best(s4.keys, 1)
  {
    s1 := Listed(State(map[], map[], 0), TEK(1, Some(k1), 0, 20), 0);
    s2 := Listed(s1, TEK(2, Some(k2), 0, 10), 0);
    hide Validate, Chose, Best;
    s3 := FirstActive(s2, k1);
    var again := SecondWaits(s3, k1, k2);
  }

  lemma StaleStates(k1: Key, k2: Key) returns (s4: State, s5: State, s6: State)
    ensures s4 == State(
      map[1 := Installed(0, Some(20), true, true), 2 := Installed(0, Some(10), true, false)], map[1 := k1, 2 := k2], 1)
    ensures s5 == Listed(s4, TEK(2, Some(k2), 0, 25), 5) && s6 == Listed(s5, TEK(1, Some(k1), 0, 15), 5)
    ensures Registered(s4, [TEK(2, Some(k2), 0, 25), TEK(1, Some(k1), 0, 15)], 5, s6)
    ensures s6.active == 1 && !Best(s6.keys, 1)
  {
    var u1, u2 := TEK(1, Some(k1), 0, 15), TEK(2, Some(k2), 0, 25);
    s4 := State(
      map[1 := Installed(0, Some(20), true, true), 2 := Installed(0, Some(10), true, false)], map[1 := k1, 2 := k2], 1);
    s5 := Listed(s4, u2, 5);
    s6 := Listed(s5, u1, 5);
    assert Better(s6.keys[2], s6.keys[1]);
    var teks := [u2, u1];
    assert teks[..1] == [u2] && [u2][..0] == [];
    assert ListedAll(s4, [], 5) == s4 && ListedAll(s4, [u2], 5) == s5 && ListedAll(s4, teks, 5) == s6;
    assert u1 in teks && u2 in teks;
    assert s6.keys.Keys - SPIs(teks) == {};
    NoSweep(s6);
  }

  lemma FirstActive(s: State, k1: Key) returns (t: State)
    requires k1.id == 1 && Validate(k1).Valid?
    requires s == State(
      map[1 := Installed(0, Some(20), false, false), 2 := Installed(0, Some(10), false, false)], map[], 0)
    ensures Next(s, Activate(1, k1), t)
    ensures t == State(
      map[1 := Installed(0, Some(20), true, true), 2 := Installed(0, Some(10), false, false)], map[1 := k1], 1)
  {
    t := State(
      map[1 := Installed(0, Some(20), true, true), 2 := Installed(0, Some(10), false, false)], map[1 := k1], 1);
    assert Added(s, 1, k1).keys[1].added;
    assert Picked(Added(s, 1, k1), 1, t);
  }

  lemma SecondWaits(s: State, k1: Key, k2: Key) returns (t: State)
    requires k2.id == 2 && Validate(k2).Valid?
    requires s == State(
      map[1 := Installed(0, Some(20), true, true), 2 := Installed(0, Some(10), false, false)], map[1 := k1], 1)
    ensures Next(s, Activate(2, k2), t)
    ensures t == State(
      map[1 := Installed(0, Some(20), true, true), 2 := Installed(0, Some(10), true, false)], map[1 := k1, 2 := k2], 1)
    ensures Best(t.keys, 1)
  {
    t := State(
      map[1 := Installed(0, Some(20), true, true), 2 := Installed(0, Some(10), true, false)], map[1 := k1, 2 := k2], 1);
    assert Added(s, 2, k2).keys[1].added;
    assert Picked(Added(s, 2, k2), 1, t);
  }

  // The store

  class KeyStore {
    var keys: map<SPI, Key>
    var active: SPI

    constructor ()
      ensures keys == map[] && active == 0
    {
      keys, active := map[], 0;
    }

    method Add(k: Key) returns (v: Validity)
      modifies this
      ensures v == Validate(k) && active == old(active)
      ensures keys == if v.Valid? then old(keys)[k.id := k] else old(keys)
    {
      v := Validate(k);
      if v.Valid? {
        keys := keys[k.id := k];
      }
    }

    method Remove(id: SPI)
      modifies this
      ensures keys == old(keys) - {id} && active == if old(active) == id then 0 else old(active)
    {
      keys := keys - {id};
      if active == id {
        active := 0;
      }
    }

    method SetActive(id: SPI) returns (ok: bool)
      modifies this
      ensures ok == (id in keys) && keys == old(keys)
      ensures active == if ok then id else old(active)
    {
      ok := id in keys;
      if ok {
        active := id;
      }
    }
  }

  // The member

  class Member {
    var keys: map<SPI, Installed>
    const store: KeyStore

    ghost function Abstract(): State
      reads this, store
    {
      State(keys, store.keys, store.active)
    }

    constructor (s: KeyStore)
      requires s.keys == map[] && s.active == 0
      ensures store == s && Abstract() == State(map[], map[], 0)
    {
      keys, store := map[], s;
    }

    // One key of a registration, without the timers it sets.
    method ListKey(tek: TEK, received: int)
      modifies this
      ensures Abstract() == Listed(old(Abstract()), tek, received)
    {
      if tek.key.None? {
        return;
      }
      var ik := Installed(received + tek.delay, None, false, false);
      if tek.spi in keys {
        ik := keys[tek.spi];
      }
      ik := ik.(expires := None);
      if tek.lifetime > 0 {
        ik := ik.(expires := Some(received + tek.lifetime));
      }
      keys := keys[tek.spi := ik];
    }

    method ActivateKey(spi: SPI, k: Key)
      modifies this, store
      ensures Next(old(Abstract()), Activate(spi, k), Abstract())
    {
      if spi !in keys || keys[spi].added {
        return;
      }
      var v := store.Add(k);
      if v.Invalid? {
        return;
      }
      keys := keys[spi := keys[spi].(added := true)];
      assert Abstract() == Added(old(Abstract()), spi, k);
      ChooseActive();
    }

    method ChooseActive()
      modifies this, store
      ensures Chose(old(Abstract()), Abstract())
    {
      hide Marked;
      var best: Option<SPI> := None;
      var rest := keys.Keys;
      while rest != {}
        invariant rest <= keys.Keys && Abstract() == old(Abstract())
        invariant best.Some? ==> best.value in keys && keys[best.value].added
        invariant forall spi | spi in keys && spi !in rest && keys[spi].added ::
                    best.Some? && !Better(keys[spi], keys[best.value])
        decreases |rest|
      {
        var spi :| spi in rest;
        rest := rest - {spi};
        if keys[spi].added && (best.None? || Better(keys[spi], keys[best.value])) {
          best := Some(spi);
        }
      }
      if best.Some? {
        ghost var active := if best.value in store.keys then best.value else store.active;
        assert Picked(Abstract(), best.value, State(Marked(keys, best), store.keys, active));
        var _ := store.SetActive(best.value);
      }
      keys := Marked(keys, best);
    }

    method RemoveLocked(spi: SPI)
      modifies this, store
      ensures Next(old(Abstract()), Remove(spi), Abstract())
    {
      if spi !in keys {
        return;
      }
      var ik := keys[spi];
      keys := keys - {spi};
      if ik.added {
        store.Remove(spi);
        assert Abstract() == Dropped(old(Abstract()), spi);
        if ik.active {
          ChooseActive();
        }
      }
    }

    // A whole registration: its keys listed in turn, and the rest removed one
    // after the other.
    method Install(teks: seq<TEK>, received: int)
      requires Inv(Abstract())
      modifies this, store
      ensures Registered(old(Abstract()), teks, received, Abstract())
      ensures keys.Keys == ListedAll(old(Abstract()), teks, received).keys.Keys * SPIs(teks)
      ensures SameKeys(keys, ListedAll(old(Abstract()), teks, received).keys)
      ensures Inv(Abstract()) && store.keys == old(store.keys) - (old(store.keys).Keys - SPIs(teks))
      ensures store.active != 0 ==>
                && old(store.active) in old(keys)
                && (Best(keys, store.active) <==> !Upsets(old(Abstract()), teks, received))
    {
      hide Next, Listed, Inv, Sweeps, Best, Upsets;
      var listed: set<SPI> := {};
      for i := 0 to |teks|
        invariant Inv(Abstract())
        invariant Abstract() == ListedAll(old(Abstract()), teks[..i], received)
        invariant listed == SPIs(teks[..i])
      {
        listed := listed + {teks[i].spi};
        ListedKeeps(Abstract(), teks[i], received);
        ListKey(teks[i], received);
        assert teks[..i + 1][..i] == teks[..i];
      }
      assert teks[..|teks|] == teks;
      ghost var u := Abstract();
      ghost var order := RemoveAllBut(listed);
      assert Elems(order) == u.keys.Keys - SPIs(teks) && Sweeps(u, order, Abstract());
      RegistrationEnds(old(Abstract()), teks, received, Abstract());
    }

    method RemoveAllBut(listed: set<SPI>) returns (ghost order: seq<SPI>)
      requires Inv(Abstract())
      modifies this, store
      ensures Elems(order) == old(keys.Keys) - listed && Sweeps(old(Abstract()), order, Abstract())
      ensures keys.Keys == old(keys.Keys) * listed && SameKeys(keys, old(keys))
    {
      hide Next, Inv, SameKeys, Sweeps, Elems;
      var rest := keys.Keys;
      order := [];
      NoSweep(Abstract());
      while rest != {}
        invariant Sweeps(old(Abstract()), order, Abstract())
        invariant rest <= old(keys.Keys) && Elems(order) == old(keys.Keys) - rest - listed
        decreases |rest|
      {
        var spi :| spi in rest;
        rest := rest - {spi};
        if spi !in listed {
          ghost var s := Abstract();
          RemoveLocked(spi);
          SweepMore(old(Abstract()), order, s, spi, Abstract());
          order := order + [spi];
        }
      }
      SweepEnds(old(Abstract()), order, listed, Abstract());
    }
  }

  lemma NoSweep(u: State)
    ensures Sweeps(u, [], u) && Elems([]) == {}
  {}

  lemma SweepEnds(u: State, order: seq<SPI>, listed: set<SPI>, t: State)
    requires Inv(u) && Sweeps(u, order, t) && Elems(order) == u.keys.Keys - listed
    ensures t.keys.Keys == u.keys.Keys * listed && SameKeys(t.keys, u.keys)
  {
    hide Inv, Sweeps, Elems, SameKeys;
    SweepsRemove(u, order, t);
  }

  lemma SweepMore(u: State, order: seq<SPI>, m: State, spi: SPI, t: State)
    requires Sweeps(u, order, m) && Next(m, Remove(spi), t)
    ensures Sweeps(u, order + [spi], t) && Elems(order + [spi]) == Elems(order) + {spi}
  {
    hide Next;
    assert (order + [spi])[..|order|] == order;
  }
}
