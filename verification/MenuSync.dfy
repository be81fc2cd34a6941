/**
 The rich-menu reconciler (scripts/staff_oa_sync.py): a channel with menus, a default menu and
 per-user links, and a run that creates, sets the default, relinks and deletes, one API call at a
 time. The class records the channel after every call, so that what holds at every step, also for
 a run that an API error cuts short, can be stated.
*/
module MenuSync {
  import opened Wrappers

  const MAX_BUTTONS: nat := 8
  const BULK_LINK_CHUNK_SIZE: nat := 500
  const BASE: string := "base"

  datatype Menu = Menu(name: string, id: nat)

  datatype Picture = Picture(menus: seq<Menu>, defaultId: Option<nat>, links: map<string, nat>, nextId: nat)

  // The button table: how many buttons a variant shows, and the 12-digit signature of its content.
  datatype Hub = Hub(buttons: string -> nat, signature: string -> string)

  // The linked employees of each variant key, in key order.
  datatype Group = Group(key: string, users: seq<string>)

  type Assignments = seq<Group>

  ghost predicate ValidHub(hub: Hub) {
    forall k :: |hub.signature(k)| == 12
  }

  predicate Fits(hub: Hub, key: string) {
    1 <= hub.buttons(key) <= MAX_BUTTONS
  }

  const PREFIX: string := "staffhub:"

  function MenuName(hub: Hub, key: string): string {
    PREFIX + key + ":" + hub.signature(key)
  }

  predicate IsStaffHub(name: string) {
    PREFIX <= name
  }

  /** Names are the reconciler's own, and tell the variants apart whatever their signatures are. */
  lemma NamesAreInjective(hub: Hub, k1: string, k2: string)
    requires ValidHub(hub)
    ensures IsStaffHub(MenuName(hub, k1))
    ensures MenuName(hub, k1) == MenuName(hub, k2) ==> k1 == k2
  {
    var n1, n2 := MenuName(hub, k1), MenuName(hub, k2);
    assert n1[|PREFIX|..|n1| - 13] == k1;
    assert n2[|PREFIX|..|n2| - 13] == k2;
  }

  // The keys of the groups, without base.
  function OtherKeys(groups: Assignments): seq<string> {
    if groups == [] then []
    else
      var rest := OtherKeys(groups[..|groups| - 1]);
      var key := groups[|groups| - 1].key;
      if key == BASE then rest else rest + [key]
  }

  // base first if it has buttons, then the observed variants in key order.
  function PlanVariants(hub: Hub, groups: Assignments): seq<string> {
    (if hub.buttons(BASE) > 0 then [BASE] else []) + OtherKeys(groups)
  }

  // ---------- Menus by name ----------

  // existing_by_name: the last listed menu of a name wins.
  function LastId(menus: seq<Menu>, name: string): Option<nat> {
    if menus == [] then None
    else if menus[|menus| - 1].name == name then Some(menus[|menus| - 1].id)
    else LastId(menus[..|menus| - 1], name)
  }

  function Others(menus: seq<Menu>): seq<Menu> {
    if menus == [] then []
    else
      var rest, m := Others(menus[..|menus| - 1]), menus[|menus| - 1];
      if IsStaffHub(m.name) then rest else rest + [m]
  }

  function Without(menus: seq<Menu>, ids: set<nat>): seq<Menu> {
    if menus == [] then []
    else
      var rest, m := Without(menus[..|menus| - 1], ids), menus[|menus| - 1];
      if m.id in ids then rest else rest + [m]
  }

  predicate Exists(menus: seq<Menu>, id: nat) {
    exists i | 0 <= i < |menus| :: menus[i].id == id
  }

  // ---------- The channel ----------

  // Ids are distinct, and new ones will be fresh.
  ghost predicate WellKept(p: Picture) {
    && (forall i, j | 0 <= i < j < |p.menus| :: p.menus[i].id != p.menus[j].id)
    && (forall i | 0 <= i < |p.menus| :: p.menus[i].id < p.nextId)
  }

  // The default and the links of these users point at existing menus or at nothing.
  ghost predicate Safe(p: Picture, users: set<string>) {
    && (p.defaultId.Some? ==> Exists(p.menus, p.defaultId.value))
    && (forall u | u in users && u in p.links :: Exists(p.menus, p.links[u]))
  }

  class Channel {
    var menus: seq<Menu>
    var defaultId: Option<nat>
    var links: map<string, nat>
    var nextId: nat
    ghost var history: seq<Picture>

    function Now(): Picture
      reads this
    {
      Picture(menus, defaultId, links, nextId)
    }

    method CreateRichMenu(name: string) returns (id: nat)
      modifies this
      ensures id == old(nextId)
      ensures Now() == old(Now()).(menus := old(menus) + [Menu(name, id)], nextId := id + 1)
      ensures history == old(history) + [Now()]
    {
      id := nextId;
      menus, nextId := menus + [Menu(name, id)], id + 1;
      history := history + [Now()];
    }

    method SetDefault(id: Option<nat>)
      modifies this
      ensures Now() == old(Now()).(defaultId := id)
      ensures history == old(history) + [Now()]
    {
      defaultId := id;
      history := history + [Now()];
    }

    method DeleteRichMenu(id: nat)
      modifies this
      ensures Now() == old(Now()).(menus := Without(old(menus), {id}))
      ensures history == old(history) + [Now()]
    {
      menus := Without(menus, {id});
      history := history + [Now()];
    }

    // Links the users to the menu, or unlinks them when there is none, one request per chunk.
    method BulkLink(users: seq<string>, id: Option<nat>)
      modifies this
      ensures Now() == old(Now()).(links := Relinked(old(links), users, id))
      ensures history == old(history) + LinkStates(old(Now()), users, id)
    {
      var start := 0;
      ghost var rest := users;
      hide Relinked, LinkStates;
      while start < |users|
        invariant 0 <= start && rest == users[if start < |users| then start else |users|..]
        invariant Relinked(links, rest, id) == Relinked(old(links), users, id)
        invariant Now() == old(Now()).(links := links)
        invariant history + LinkStates(Now(), rest, id) == old(history) + LinkStates(old(Now()), users, id)
        decreases |users| - start
      {
        var end := if start + BULK_LINK_CHUNK_SIZE < |users| then start + BULK_LINK_CHUNK_SIZE else |users|;
        LinkStatesNext(Now(), rest, users[start..end], users[end..], id);
        links := Relinked(links, users[start..end], id);
        history := history + [Now()];
        rest := users[end..];
        start := start + BULK_LINK_CHUNK_SIZE;
      }
      NoneRelinked(Now(), id);
    }
  }

  function Relinked(links: map<string, nat>, users: seq<string>, id: Option<nat>): map<string, nat> {
    if id.None? then map u | u in links && u !in users :: links[u]
    else map u | u in links.Keys + (set u | u in users) :: if u in users then id.value else links[u]
  }

  // The channel after each request of a bulk link: one request for every chunk of the users.
  function LinkStates(p: Picture, users: seq<string>, id: Option<nat>): seq<Picture>
    decreases |users|
  {
    if users == [] then []
    else
      var n := if BULK_LINK_CHUNK_SIZE < |users| then BULK_LINK_CHUNK_SIZE else |users|;
      var q := p.(links := Relinked(p.links, users[..n], id));
      [q] + LinkStates(q, users[n..], id)
  }

  lemma LinkStatesNext(p: Picture, users: seq<string>, chunk: seq<string>, rest: seq<string>, id: Option<nat>)
    requires users == chunk + rest && users != []
    requires |chunk| == if BULK_LINK_CHUNK_SIZE < |users| then BULK_LINK_CHUNK_SIZE else |users|
    ensures var q := p.(links := Relinked(p.links, chunk, id));
            && LinkStates(p, users, id) == [q] + LinkStates(q, rest, id)
            && Relinked(q.links, rest, id) == Relinked(p.links, users, id)
  {
    assert users[..|chunk|] == chunk && users[|chunk|..] == rest;
    RelinkedTwice(p.links, users, |chunk|, id);
    hide Relinked;
  }

  lemma NoneRelinked(p: Picture, id: Option<nat>)
    ensures Relinked(p.links, [], id) == p.links && LinkStates(p, [], id) == []
  {
  }

  lemma RelinkedTwice(links: map<string, nat>, users: seq<string>, n: nat, id: Option<nat>)
    requires n <= |users|
    ensures Relinked(Relinked(links, users[..n], id), users[n..], id) == Relinked(links, users, id)
  {
    assert users == users[..n] + users[n..];
  }

  // ---------- One API call at a time ----------

  ghost predicate Unreferenced(p: Picture, id: nat, users: set<string>) {
    p.defaultId != Some(id) && forall u | u in users && u in p.links :: p.links[u] != id
  }

  ghost predicate Adds(p: Picture, q: Picture) {
    q.menus != [] &&
    var m := q.menus[|q.menus| - 1];
    IsStaffHub(m.name) && q == p.(menus := p.menus + [Menu(m.name, p.nextId)], nextId := p.nextId + 1)
  }

  // The default becomes an existing menu or none.
  ghost predicate Switches(p: Picture, q: Picture) {
    q == p.(defaultId := q.defaultId) && (q.defaultId.Some? ==> Exists(p.menus, q.defaultId.value))
  }

  // A chunk of the users is linked to an existing menu, or unlinked.
  ghost predicate Links(p: Picture, q: Picture, chunk: seq<string>, id: Option<nat>, users: set<string>) {
    && |chunk| <= 500 && (forall u | u in chunk :: u in users)
    && (id.Some? ==> Exists(p.menus, id.value)) && q == p.(links := Relinked(p.links, chunk, id))
  }

  // A staffhub menu that neither the default nor any of the users' links names is deleted.
  ghost predicate Deletes(p: Picture, q: Picture, id: nat, users: set<string>) {
    && Exists(p.menus, id) && (forall m | m in p.menus && m.id == id :: IsStaffHub(m.name))
    && Unreferenced(p, id, users) && q == p.(menus := Without(p.menus, {id}))
  }

  ghost predicate OneCall(p: Picture, q: Picture, users: set<string>) {
    || Adds(p, q)
    || Switches(p, q)
    || (exists chunk, id :: Links(p, q, chunk, id, users))
    || (exists id :: Deletes(p, q, id, users))
  }

  // The channel before call j, and after the last one.
  function Before(p: Picture, states: seq<Picture>, j: nat): Picture
    requires j <= |states|
  {
    if j == 0 then p else states[j - 1]
  }

  ghost predicate Calls(p: Picture, states: seq<Picture>, q: Picture, users: set<string>) {
    q == Before(p, states, |states|) && forall j | 0 <= j < |states| :: OneCall(Before(p, states, j), states[j], users)
  }

  // From channel p on, what has been recorded are single calls that lead to q.
  ghost predicate Recorded(p: Picture, past: seq<Picture>, q: Picture, history: seq<Picture>, users: set<string>) {
    past <= history && Calls(p, history[|past|..], q, users)
  }

  lemma CallsAppend(p: Picture, a: seq<Picture>, q: Picture, b: seq<Picture>, r: Picture, users: set<string>)
    requires Calls(p, a, q, users) && Calls(q, b, r, users)
    ensures Calls(p, a + b, r, users)
  {
    hide OneCall;
    var c := a + b;
    forall j | 0 <= j < |c| ensures OneCall(Before(p, c, j), c[j], users) {
      if j >= |a| {
        assert c[j] == b[j - |a|] && Before(p, c, j) == Before(q, b, j - |a|);
      } else {
        assert c[j] == a[j] && Before(p, c, j) == Before(p, a, j);
      }
    }
  }

  lemma RecordedAppend(p: Picture, past: seq<Picture>, q: Picture, mid: seq<Picture>, r: Picture,
                       history: seq<Picture>, users: set<string>)
    requires Recorded(p, past, q, mid, users) && Recorded(q, mid, r, history, users)
    ensures Recorded(p, past, r, history, users)
  {
    hide Calls;
    CallsAppend(p, mid[|past|..], q, history[|mid|..], r, users);
    assert history[|past|..] == mid[|past|..] + history[|mid|..];
  }

  lemma RecordedNone(p: Picture, past: seq<Picture>, users: set<string>)
    ensures Recorded(p, past, p, past, users)
  {
  }

  lemma RecordedOne(p: Picture, past: seq<Picture>, q: Picture, mid: seq<Picture>, r: Picture, users: set<string>)
    requires Recorded(p, past, q, mid, users) && OneCall(q, r, users)
    ensures Recorded(p, past, r, mid + [r], users)
  {
    hide OneCall;
    assert (mid + [r])[|mid|..] == [r];
    assert Recorded(q, mid, r, mid + [r], users);
    RecordedAppend(p, past, q, mid, r, mid + [r], users);
  }

  lemma {:induction false} LinkCalls(p: Picture, linked: seq<string>, id: Option<nat>, users: set<string>)
    requires (forall u | u in linked :: u in users) && (id.Some? ==> Exists(p.menus, id.value))
    ensures Calls(p, LinkStates(p, linked, id), p.(links := Relinked(p.links, linked, id)), users)
    decreases |linked|
  {
    if linked == [] {
      assert Relinked(p.links, [], id) == p.links;
    } else {
      var n := if BULK_LINK_CHUNK_SIZE < |linked| then BULK_LINK_CHUNK_SIZE else |linked|;
      var q := p.(links := Relinked(p.links, linked[..n], id));
      RelinkedTwice(p.links, linked, n, id);
      LinkCalls(q, linked[n..], id, users);
      assert Links(p, q, linked[..n], id, users);
      hide Links, Relinked;
      assert Calls(p, [q], q, users);
      CallsAppend(p, [q], q, LinkStates(q, linked[n..], id), p.(links := Relinked(p.links, linked, id)), users);
    }
  }

  // ---------- What every step keeps ----------

  ghost predicate Good(p: Picture, users: set<string>, others: seq<Menu>) {
    WellKept(p) && Safe(p, users) && Others(p.menus) == others
  }

  ghost predicate Trail(history: seq<Picture>, from: nat, users: set<string>, others: seq<Menu>) {
    forall j | from <= j < |history| :: Good(history[j], users, others)
  }

  lemma CreateGood(p: Picture, name: string, users: set<string>, others: seq<Menu>)
    requires Good(p, users, others) && IsStaffHub(name)
    ensures Good(p.(menus := p.menus + [Menu(name, p.nextId)], nextId := p.nextId + 1), users, others)
  {
    var menus := p.menus + [Menu(name, p.nextId)];
    assert menus[..|p.menus|] == p.menus;
    forall id | Exists(p.menus, id) ensures Exists(menus, id) {
      var i :| 0 <= i < |p.menus| && p.menus[i].id == id;
      assert menus[i].id == id;
    }
  }

  // A call of a run keeps a good channel good.
  lemma CallGood(p: Picture, q: Picture, users: set<string>, others: seq<Menu>)
    requires Good(p, users, others) && OneCall(p, q, users)
    ensures Good(q, users, others)
  {
    hide Good, Relinked, Without, IsStaffHub;
    if Adds(p, q) {
      CreateGood(p, q.menus[|q.menus| - 1].name, users, others);
    } else if Switches(p, q) {
      SwitchGood(p, q, users, others);
    } else if chunk, id :| Links(p, q, chunk, id, users) {
      LinkGood(p, users, others, chunk, id);
    } else {
      var id :| Deletes(p, q, id, users);
      DeleteGood(p, users, others, {id});
    }
  }

  lemma SwitchGood(p: Picture, q: Picture, users: set<string>, others: seq<Menu>)
    requires Good(p, users, others) && Switches(p, q)
    ensures Good(q, users, others)
  {
    hide Exists, Others;
  }

  // So everything recorded from a good channel on is good.
  lemma {:induction false} CallsGood(p: Picture, states: seq<Picture>, n: nat, users: set<string>, others: seq<Menu>)
    requires Good(p, users, others) && n <= |states|
    requires forall j | 0 <= j < n :: OneCall(Before(p, states, j), states[j], users)
    ensures forall j | 0 <= j <= n :: Good(Before(p, states, j), users, others)
  {
    hide Good, OneCall;
    if n > 0 {
      CallsGood(p, states, n - 1, users, others);
      CallGood(Before(p, states, n - 1), states[n - 1], users, others);
    }
  }

  lemma RecordedGood(p: Picture, past: seq<Picture>, q: Picture, history: seq<Picture>, users: set<string>,
                     others: seq<Menu>)
    requires Recorded(p, past, q, history, users)
    ensures KeepsGood(p, past, q, history, users, others)
  {
    hide Good, OneCall;
    if Good(p, users, others) {
      var states := history[|past|..];
      CallsGood(p, states, |states|, users, others);
      forall j | |past| <= j < |history| ensures Good(history[j], users, others) {
        assert history[j] == Before(p, states, j - |past| + 1);
      }
    }
  }

  /** Whatever menu disappears at some call of a run is a staffhub menu that at that moment neither the
      default nor any assigned user's link names, and it disappears alone. */
  lemma DeletedWasUnreferenced(p: Picture, past: seq<Picture>, q: Picture, history: seq<Picture>, users: set<string>,
                               j: nat, m: Menu)
    requires Recorded(p, past, q, history, users) && j < |history| - |past|
    requires var before := Before(p, history[|past|..], j);
             m in before.menus && m !in history[|past| + j].menus
    ensures var before := Before(p, history[|past|..], j);
            && "staffhub:" <= m.name && Unreferenced(before, m.id, users)
            && history[|past| + j] == before.(menus := Without(before.menus, {m.id}))
  {
    var before, after := Before(p, history[|past|..], j), history[|past|..][j];
    assert OneCall(before, after, users);
    hide Calls, Without, Relinked, Unreferenced;
    var id :| Deletes(before, after, id, users);
    WithoutKeeps(before.menus, {id});
  }

  /** And menus of others neither come nor go at any call of a run. */
  lemma ForeignMenusStay(p: Picture, past: seq<Picture>, q: Picture, history: seq<Picture>, users: set<string>,
                         j: nat, m: Menu)
    requires Recorded(p, past, q, history, users) && j < |history| - |past| && !("staffhub:" <= m.name)
    ensures m in history[|past| + j].menus <==> m in Before(p, history[|past|..], j).menus
  {
    var before, after := Before(p, history[|past|..], j), history[|past|..][j];
    assert OneCall(before, after, users);
    hide Calls, Without, Relinked, Unreferenced;
    if id :| Deletes(before, after, id, users) {
      WithoutKeeps(before.menus, {id});
    }
  }

  lemma {:induction false} OthersMeaning(menus: seq<Menu>)
    ensures forall m :: m in Others(menus) <==> m in menus && !("staffhub:" <= m.name)
  {
    if menus != [] {
      OthersMeaning(menus[..|menus| - 1]);
      assert menus == menus[..|menus| - 1] + [menus[|menus| - 1]];
    }
  }

  lemma LinkGood(p: Picture, users: set<string>, others: seq<Menu>, linked: seq<string>, id: Option<nat>)
    requires Good(p, users, others) && (id.Some? ==> Exists(p.menus, id.value))
    ensures Good(p.(links := Relinked(p.links, linked, id)), users, others)
  {
    hide Exists;
  }

  // What deleting menus leaves, in order.
  lemma {:induction false} WithoutKeeps(menus: seq<Menu>, ids: set<nat>)
    ensures forall id :: Exists(Without(menus, ids), id) <==> Exists(menus, id) && id !in ids
    ensures forall i | 0 <= i < |Without(menus, ids)| :: Without(menus, ids)[i] in menus
    ensures forall m | m in menus && m.id !in ids :: m in Without(menus, ids)
  {
    if menus != [] {
      var n := |menus| - 1;
      WithoutKeeps(menus[..n], ids);
      ExistsAppend(menus[..n], menus[n]);
      assert menus[..n] + [menus[n]] == menus;
      ExistsAppend(Without(menus[..n], ids), menus[n]);
    }
  }

  lemma ExistsAppend(menus: seq<Menu>, m: Menu)
    ensures forall id :: Exists(menus + [m], id) <==> Exists(menus, id) || id == m.id
  {
    forall id ensures Exists(menus + [m], id) <==> Exists(menus, id) || id == m.id {
      if Exists(menus, id) {
        var i :| 0 <= i < |menus| && menus[i].id == id;
        assert (menus + [m])[i].id == id;
      }
      assert (menus + [m])[|menus|] == m;
    }
  }

  ghost predicate DistinctIds(menus: seq<Menu>) {
    forall i, j | 0 <= i < j < |menus| :: menus[i].id != menus[j].id
  }

  lemma {:induction false} WithoutDistinct(menus: seq<Menu>, ids: set<nat>)
    requires DistinctIds(menus)
    ensures DistinctIds(Without(menus, ids))
  {
    if menus != [] {
      var n := |menus| - 1;
      WithoutDistinct(menus[..n], ids);
      WithoutKeeps(menus[..n], ids);
    }
  }

  lemma {:induction false} WithoutOthers(menus: seq<Menu>, ids: set<nat>)
    requires forall m | m in menus && m.id in ids :: IsStaffHub(m.name)
    ensures Others(Without(menus, ids)) == Others(menus)
  {
    if menus != [] {
      var n := |menus| - 1;
      WithoutOthers(menus[..n], ids);
      var rest := Without(menus[..n], ids);
      assert (rest + [menus[n]])[..|rest|] == rest;
    }
  }

  // Deleting staffhub menus that no default and no assigned user's link names is harmless.
  lemma DeleteGood(p: Picture, users: set<string>, others: seq<Menu>, ids: set<nat>)
    requires Good(p, users, others)
    requires forall m | m in p.menus && m.id in ids :: IsStaffHub(m.name)
    requires p.defaultId.Some? ==> p.defaultId.value !in ids
    requires forall u | u in users && u in p.links :: p.links[u] !in ids
    ensures Good(p.(menus := Without(p.menus, ids)), users, others)
  {
    WithoutKeeps(p.menus, ids);
    WithoutDistinct(p.menus, ids);
    WithoutOthers(p.menus, ids);
    hide Without, Others, Exists;
  }

  lemma {:induction false} WithoutTwice(menus: seq<Menu>, a: set<nat>, b: set<nat>)
    ensures Without(Without(menus, a), b) == Without(menus, a + b)
  {
    if menus != [] {
      var n := |menus| - 1;
      WithoutTwice(menus[..n], a, b);
      var rest := Without(menus[..n], a);
      assert (rest + [menus[n]])[..|rest|] == rest;
    }
  }

  // ---------- The plan ----------

  // A menu id the run works with; a dry run only has a placeholder for a menu it would create.
  datatype Ref = Real(id: nat) | NewFor(key: string)

  // The variants that must be created, in order.
  function Creates(hub: Hub, keys: seq<string>, existing: seq<Menu>): seq<string> {
    if keys == [] then []
    else
      var rest, key := Creates(hub, keys[..|keys| - 1], existing), keys[|keys| - 1];
      if Fits(hub, key) && LastId(existing, MenuName(hub, key)).None? then rest + [key] else rest
  }

  function NewMenus(hub: Hub, creates: seq<string>, firstNew: nat): (r: seq<Menu>)
    ensures |r| == |creates|
  {
    seq(|creates|, j requires 0 <= j < |creates| => Menu(MenuName(hub, creates[j]), firstNew + j))
  }

  // menu_ids: the menu of every variant that fits the layout.
  function MenuIds(hub: Hub, keys: seq<string>, existing: seq<Menu>, firstNew: nat, apply: bool): map<string, Ref> {
    if keys == [] then map[]
    else
      var before, key := keys[..|keys| - 1], keys[|keys| - 1];
      var rest := MenuIds(hub, before, existing, firstNew, apply);
      if !Fits(hub, key) then rest
      else match LastId(existing, MenuName(hub, key))
        case Some(id) => rest[key := Real(id)]
        case None => rest[key := if apply then Real(firstNew + |Creates(hub, before, existing)|) else NewFor(key)]
  }

  // The names of the variants that fit the layout.
  function Desired(hub: Hub, keys: seq<string>): set<string> {
    set k | k in keys && Fits(hub, k) :: MenuName(hub, k)
  }

  // The staffhub menus that are not the one kept for their name.
  function Stale(hub: Hub, keys: seq<string>, existing: seq<Menu>, menus: seq<Menu>): seq<nat> {
    if menus == [] then []
    else
      var rest, m := Stale(hub, keys, existing, menus[..|menus| - 1]), menus[|menus| - 1];
      if IsStaffHub(m.name) && !(m.name in Desired(hub, keys) && LastId(existing, m.name) == Some(m.id))
      then rest + [m.id] else rest
  }

  function Elements<T>(s: seq<T>): set<T> {
    set x | x in s
  }

  // The menu the users of a variant belong on: their own, else base, else none.
  function Target(hub: Hub, ids: map<string, Ref>, key: string): Option<nat> {
    var own := if Fits(hub, key) then key else BASE;
    if own in ids && ids[own].Real? then Some(ids[own].id) else None
  }

  function LinkedAll(hub: Hub, ids: map<string, Ref>, groups: Assignments, links: map<string, nat>): map<string, nat> {
    if groups == [] then links
    else
      var g := groups[|groups| - 1];
      Relinked(LinkedAll(hub, ids, groups[..|groups| - 1], links), g.users, Target(hub, ids, g.key))
  }

  // A finished run's report; a run stops with a KeyError when base has buttons but does not fit.
  datatype Report = Done(created: seq<string>, deleted: seq<nat>, skipped: seq<string>) | KeyErrorOnBase

  function Skips(hub: Hub, keys: seq<string>): seq<string> {
    if keys == [] then []
    else
      var rest, key := Skips(hub, keys[..|keys| - 1]), keys[|keys| - 1];
      if Fits(hub, key) then rest else rest + [key]
  }

  predicate BaseOverflows(hub: Hub) {
    hub.buttons(BASE) > MAX_BUTTONS
  }

  function PlannedReport(hub: Hub, groups: Assignments, existing: seq<Menu>): Report {
    var keys := PlanVariants(hub, groups);
    if BaseOverflows(hub) then KeyErrorOnBase
    else Done(Creates(hub, keys, existing), Stale(hub, keys, existing, existing), Skips(hub, keys))
  }

  // The channel with the missing menus created.
  function Ensured(hub: Hub, keys: seq<string>, p: Picture): Picture {
    var creates := Creates(hub, keys, p.menus);
    p.(menus := p.menus + NewMenus(hub, creates, p.nextId), nextId := p.nextId + |creates|)
  }

  // The channel after an applied run.
  function Synced(hub: Hub, groups: Assignments, p: Picture): Picture {
    var keys := PlanVariants(hub, groups);
    var e := Ensured(hub, keys, p);
    if BaseOverflows(hub) then e
    else
      var ids := MenuIds(hub, keys, p.menus, p.nextId, true);
      Picture(Without(e.menus, Elements(Stale(hub, keys, p.menus, p.menus))),
              Target(hub, ids, BASE), LinkedAll(hub, ids, groups, p.links), e.nextId)
  }

  // ---------- The run ----------

  class Run {
    const hub: Hub
    const channel: Channel

    constructor (hub: Hub, channel: Channel)
      ensures this.hub == hub && this.channel == channel
    {
      this.hub := hub;
      this.channel := channel;
    }

    // One reconciliation, dry or applied.
    method Sync(groups: Assignments, apply: bool) returns (report: Report)
      requires ValidHub(hub) && WellKept(channel.Now())
      modifies channel
      ensures report == PlannedReport(hub, groups, old(channel.menus))
      ensures channel.Now() == if apply then Synced(hub, groups, old(channel.Now())) else old(channel.Now())
      ensures Recorded(old(channel.Now()), old(channel.history), channel.Now(), channel.history, Users(groups))
      ensures KeepsGood(old(channel.Now()), old(channel.history), channel.Now(), channel.history, Users(groups),
                        Others(old(channel.menus)))
    {
      ghost var p, past, users, others := channel.Now(), channel.history, Users(groups), Others(channel.menus);
      assert forall g, u | g in groups && u in g.users :: u in users;
      var keys := PlanVariants(hub, groups);
      var existing := channel.menus;
      hide MenuIds, Creates, Stale, Skips, Desired, LinkedAll, Without, Good, Trail, WellKept, PlanVariants, Users,
           Exists, NewerThan, Grounded, NewMenus, KeepsGood, Recorded;
      var menuIds, desired, skipped, created := EnsureVariants(keys, existing, apply, users);
      ghost var e := channel.Now();
      EnsuredFacts(hub, groups, p, apply);
      var current := channel.defaultId;
      if hub.buttons(BASE) == 0 {
        if current.Some? && apply {
          SwitchDefault(None, p, past, users);
        }
      } else if BASE !in menuIds {
        RecordedGood(p, past, channel.Now(), channel.history, users, others);
        return KeyErrorOnBase;
      } else if apply && current != Some(menuIds[BASE].id) {
        SwitchDefault(Some(menuIds[BASE].id), p, past, users);
      }
      LinkUsers(groups, menuIds, skipped, apply, p, past, users);
      if apply {
        LinksPointAtKept(hub, groups, menuIds, p, channel.Now());
      }
      var deleted := DeleteStale(keys, existing, menuIds, desired, apply, p.nextId, p, past, users);
      RecordedGood(p, past, channel.Now(), channel.history, users, others);
      return Done(created, deleted, skipped);
    }

    method SwitchDefault(id: Option<nat>, ghost p: Picture, ghost past: seq<Picture>, ghost users: set<string>)
      requires Recorded(p, past, channel.Now(), channel.history, users)
      requires id.Some? ==> Exists(channel.menus, id.value)
      modifies channel
      ensures channel.Now() == old(channel.Now()).(defaultId := id)
      ensures Recorded(p, past, channel.Now(), channel.history, users)
    {
      ghost var before, mid := channel.Now(), channel.history;
      channel.SetDefault(id);
      assert Switches(before, channel.Now());
      hide Recorded, Exists;
      RecordedOne(p, past, before, mid, channel.Now(), users);
    }

    // Ensure each needed variant exists, creating the ones whose name is new.
    method EnsureVariants(keys: seq<string>, existing: seq<Menu>, apply: bool, ghost users: set<string>)
      returns (menuIds: map<string, Ref>, desired: set<string>, skipped: seq<string>, created: seq<string>)
      requires existing == channel.menus
      modifies channel
      ensures menuIds == MenuIds(hub, keys, existing, old(channel.nextId), apply)
      ensures desired == Desired(hub, keys) && skipped == Skips(hub, keys) && created == Creates(hub, keys, existing)
      ensures channel.Now() == if apply then Ensured(hub, keys, old(channel.Now())) else old(channel.Now())
      ensures Recorded(old(channel.Now()), old(channel.history), channel.Now(), channel.history, users)
    {
      hide Recorded, OneCall, Calls, WellKept, Fits, MenuIds, Creates, Skips, Desired, LastId, Ensured, MenuName,
           IsStaffHub, NewMenus;
      menuIds, desired, skipped, created := map[], {}, [], [];
      ghost var p, past := channel.Now(), channel.history;
      PlanNone(hub, existing, apply, p);
      RecordedNone(p, past, users);
      assert keys[..0] == [];
      for i := 0 to |keys|
        invariant menuIds == MenuIds(hub, keys[..i], existing, p.nextId, apply)
        invariant desired == Desired(hub, keys[..i]) && skipped == Skips(hub, keys[..i])
        invariant created == Creates(hub, keys[..i], existing)
        invariant channel.Now() == if apply then Ensured(hub, keys[..i], p) else p
        invariant Recorded(p, past, channel.Now(), channel.history, users)
      {
        var key := keys[i];
        assert keys[..i + 1] == keys[..i] + [key];
        PlanNext(hub, keys[..i], key, existing, p.nextId, apply);
        EnsuredNext(hub, keys[..i], key, p);
        if !Fits(hub, key) {
          skipped := skipped + [key];
        } else {
          var name := MenuName(hub, key);
          desired := desired + {name};
          var known := LastId(existing, name);
          if known.Some? {
            menuIds := menuIds[key := Real(known.value)];
          } else {
            created := created + [key];
            if apply {
              var id := CreateVariant(name, p, past, users);
              menuIds := menuIds[key := Real(id)];
            } else {
              menuIds := menuIds[key := NewFor(key)];
            }
          }
        }
      }
      assert keys[..|keys|] == keys;
    }

    // Per-user links: own menu, else base, else none.
    method LinkUsers(groups: Assignments, menuIds: map<string, Ref>, skipped: seq<string>, apply: bool,
                     ghost p: Picture, ghost past: seq<Picture>, ghost users: set<string>)
      requires !BaseOverflows(hub) && skipped == Skips(hub, PlanVariants(hub, groups))
      requires menuIds.Keys == (set k | k in PlanVariants(hub, groups) && Fits(hub, k))
      requires apply ==> Grounded(menuIds, channel.menus)
      requires forall g, u | g in groups && u in g.users :: u in users
      requires Recorded(p, past, channel.Now(), channel.history, users)
      modifies channel
      ensures channel.Now() ==
              if apply then old(channel.Now()).(links := LinkedAll(hub, menuIds, groups, old(channel.links)))
              else old(channel.Now())
      ensures Recorded(p, past, channel.Now(), channel.history, users)
    {
      ghost var q := channel.Now();
      hide Recorded, LinkedAll, Skips, PlanVariants, Exists, Target;
      LinkedNone(hub, menuIds, groups, q);
      for i := 0 to |groups|
        invariant channel.Now() == if apply then q.(links := LinkedAll(hub, menuIds, groups[..i], q.links)) else q
        invariant Recorded(p, past, channel.Now(), channel.history, users)
      {
        var g := groups[i];
        LinkedNext(hub, menuIds, groups, i, q.links);
        TargetCases(hub, menuIds, groups, i);
        if apply {
          var target: Option<nat>;
          if g.key in skipped {
            target := if hub.buttons(BASE) > 0 then Some(menuIds[BASE].id) else None;
          } else if g.key == BASE && hub.buttons(BASE) == 0 {
            target := None;
          } else {
            target := Some(menuIds[g.key].id);
          }
          LinkGroup(g.users, target, p, past, users);
        }
      }
      assert groups[..|groups|] == groups;
    }

    method LinkGroup(linked: seq<string>, id: Option<nat>, ghost p: Picture, ghost past: seq<Picture>,
                     ghost users: set<string>)
      requires Recorded(p, past, channel.Now(), channel.history, users)
      requires (forall u | u in linked :: u in users) && (id.Some? ==> Exists(channel.menus, id.value))
      modifies channel
      ensures channel.Now() == old(channel.Now()).(links := Relinked(old(channel.links), linked, id))
      ensures Recorded(p, past, channel.Now(), channel.history, users)
    {
      ghost var before, mid := channel.Now(), channel.history;
      channel.BulkLink(linked, id);
      LinkCalls(before, linked, id, users);
      hide Relinked, LinkStates, Calls;
      assert channel.history[|mid|..] == LinkStates(before, linked, id);
      RecordedAppend(p, past, before, mid, channel.Now(), channel.history, users);
    }

    // Delete the staffhub menus that are not in use, last of all.
    method DeleteStale(keys: seq<string>, existing: seq<Menu>, menuIds: map<string, Ref>, desired: set<string>,
                       apply: bool, ghost firstNew: nat, ghost p: Picture, ghost past: seq<Picture>,
                       ghost users: set<string>)
      returns (deleted: seq<nat>)
      requires ValidHub(hub) && WellKept(channel.Now()) && existing <= channel.menus && NewerThan(existing, firstNew)
      requires menuIds == MenuIds(hub, keys, existing, firstNew, apply) && desired == Desired(hub, keys)
      requires apply ==> PointsAtKept(channel.Now(), menuIds, users)
      requires Recorded(p, past, channel.Now(), channel.history, users)
      modifies channel
      ensures deleted == Stale(hub, keys, existing, existing)
      ensures channel.Now() ==
              if apply then old(channel.Now()).(menus := Without(old(channel.menus), Elements(deleted)))
              else old(channel.Now())
      ensures Recorded(p, past, channel.Now(), channel.history, users)
    {
      ghost var q := channel.Now();
      deleted := [];
      hide Recorded, Stale, Without, MenuIds, Desired, Exists, WellKept, IsStaffHub, IsStale, Elements, NewerThan,
           PointsAtKept, Deletes;
      StaleNone(hub, keys, existing, q);
      for i := 0 to |existing|
        invariant deleted == Stale(hub, keys, existing, existing[..i])
        invariant channel.Now() == if apply then q.(menus := Without(q.menus, Elements(deleted))) else q
        invariant Recorded(p, past, channel.Now(), channel.history, users)
      {
        var menu := existing[i];
        StaleStep(hub, keys, existing, firstNew, apply, i, q, users);
        if IsStaffHub(menu.name) && !(menu.name in desired && Real(menu.id) in menuIds.Values) {
          if apply {
            DeleteMenu(menu.id, p, past, users);
          }
          deleted := deleted + [menu.id];
        }
      }
      assert existing[..|existing|] == existing;
    }

    method DeleteMenu(id: nat, ghost p: Picture, ghost past: seq<Picture>, ghost users: set<string>)
      requires Recorded(p, past, channel.Now(), channel.history, users)
      requires Deletes(channel.Now(), channel.Now().(menus := Without(channel.menus, {id})), id, users)
      modifies channel
      ensures channel.Now() == old(channel.Now()).(menus := Without(old(channel.menus), {id}))
      ensures Recorded(p, past, channel.Now(), channel.history, users)
    {
      ghost var before, mid := channel.Now(), channel.history;
      channel.DeleteRichMenu(id);
      hide Recorded, Without, Deletes;
      RecordedOne(p, past, before, mid, channel.Now(), users);
    }

    method CreateVariant(name: string, ghost p: Picture, ghost past: seq<Picture>, ghost users: set<string>)
      returns (id: nat)
      requires IsStaffHub(name) && Recorded(p, past, channel.Now(), channel.history, users)
      modifies channel
      ensures id == old(channel.nextId)
      ensures channel.Now() == old(channel.Now()).(menus := old(channel.menus) + [Menu(name, id)], nextId := id + 1)
      ensures Recorded(p, past, channel.Now(), channel.history, users)
    {
      ghost var before, mid := channel.Now(), channel.history;
      id := channel.CreateRichMenu(name);
      assert Adds(before, channel.Now());
      hide Recorded;
      RecordedOne(p, past, before, mid, channel.Now(), users);
    }
  }

  // Every id the run works with is a menu of the channel.
  ghost predicate Grounded(ids: map<string, Ref>, menus: seq<Menu>) {
    forall k | k in ids :: ids[k].Real? && Exists(menus, ids[k].id)
  }

  ghost predicate NewerThan(existing: seq<Menu>, firstNew: nat) {
    forall i | 0 <= i < |existing| :: existing[i].id < firstNew
  }

  // The default and the assigned users' links name menus the run keeps, or nothing.
  ghost predicate PointsAtKept(p: Picture, ids: map<string, Ref>, users: set<string>) {
    && (p.defaultId.Some? ==> Real(p.defaultId.value) in ids.Values)
    && (forall u | u in users && u in p.links :: Real(p.links[u]) in ids.Values)
  }

  lemma LinkedNone(hub: Hub, ids: map<string, Ref>, groups: Assignments, p: Picture)
    ensures LinkedAll(hub, ids, groups[..0], p.links) == p.links
  {
  }

  lemma LinkedNext(hub: Hub, ids: map<string, Ref>, groups: Assignments, i: nat, links: map<string, nat>)
    requires i < |groups|
    ensures LinkedAll(hub, ids, groups[..i + 1], links) ==
            Relinked(LinkedAll(hub, ids, groups[..i], links), groups[i].users, Target(hub, ids, groups[i].key))
  {
    assert groups[..i + 1][..i] == groups[..i];
  }

  lemma {:induction false} SkipsMembers(hub: Hub, keys: seq<string>)
    ensures forall k :: k in Skips(hub, keys) <==> k in keys && !Fits(hub, k)
  {
    if keys != [] {
      SkipsMembers(hub, keys[..|keys| - 1]);
      assert keys == keys[..|keys| - 1] + [keys[|keys| - 1]];
    }
  }

  lemma {:induction false} OtherKeysMembers(groups: Assignments)
    ensures forall k :: k in OtherKeys(groups) <==> k != BASE && exists i | 0 <= i < |groups| :: groups[i].key == k
  {
    if groups != [] {
      OtherKeysMembers(groups[..|groups| - 1]);
    }
  }

  // Where the three branches of the linking loop send a group.
  lemma TargetCases(hub: Hub, ids: map<string, Ref>, groups: Assignments, i: nat)
    requires i < |groups| && !BaseOverflows(hub)
    requires ids.Keys == (set k | k in PlanVariants(hub, groups) && Fits(hub, k))
    ensures var key := groups[i].key;
            && (key in Skips(hub, PlanVariants(hub, groups)) <==>
              !Fits(hub, key) && (key == BASE ==> hub.buttons(BASE) > 0))
            && (hub.buttons(BASE) > 0 <==> BASE in ids)
            && (Fits(hub, key) ==> key in ids)
            && (!Fits(hub, key) && key == BASE ==> hub.buttons(BASE) == 0)
  {
    SkipsMembers(hub, PlanVariants(hub, groups));
    OtherKeysMembers(groups);
    hide Skips, OtherKeys;
  }

  lemma StaleNone(hub: Hub, keys: seq<string>, existing: seq<Menu>, p: Picture)
    ensures Stale(hub, keys, existing, existing[..0]) == []
    ensures p.(menus := Without(p.menus, Elements([]))) == p
  {
    assert Elements<nat>([]) == {};
    WithoutNothing(p.menus);
  }

  lemma {:induction false} WithoutNothing(menus: seq<Menu>)
    ensures Without(menus, {}) == menus
  {
    if menus != [] {
      WithoutNothing(menus[..|menus| - 1]);
    }
  }

  predicate IsStale(hub: Hub, keys: seq<string>, existing: seq<Menu>, m: Menu) {
    IsStaffHub(m.name) && !(m.name in Desired(hub, keys) && LastId(existing, m.name) == Some(m.id))
  }

  lemma StaleNext(hub: Hub, keys: seq<string>, existing: seq<Menu>, i: nat)
    requires i < |existing|
    ensures Stale(hub, keys, existing, existing[..i + 1]) ==
            Stale(hub, keys, existing, existing[..i]) +
            if IsStale(hub, keys, existing, existing[i]) then [existing[i].id] else []
  {
    assert existing[..i + 1][..i] == existing[..i];
    hide Desired, LastId;
  }

  // Everyone the assignments mention.
  function Users(groups: Assignments): set<string> {
    set i, u | 0 <= i < |groups| && u in groups[i].users :: u
  }

  // What holds once the needed variants exist.
  lemma EnsuredFacts(hub: Hub, groups: Assignments, p: Picture, apply: bool)
    requires ValidHub(hub) && WellKept(p)
    ensures var keys := PlanVariants(hub, groups);
            var ids, e := MenuIds(hub, keys, p.menus, p.nextId, apply), Ensured(hub, keys, p);
            && ids.Keys == (set k | k in keys && Fits(hub, k))
            && (BASE in ids <==> hub.buttons(BASE) > 0 && !BaseOverflows(hub))
            && NewerThan(p.menus, p.nextId) && p.menus <= e.menus && WellKept(e)
            && (apply ==> Grounded(ids, e.menus))
  {
    var keys := PlanVariants(hub, groups);
    OtherKeysMembers(groups);
    MenuIdsMeaning(hub, keys, p.menus, p.nextId, apply);
    hide MenuIds, OtherKeys, Creates, LastId, MenuName;
    if apply {
      AllGrounded(hub, keys, p, MenuIds(hub, keys, p.menus, p.nextId, true));
    }
  }

  lemma AllGrounded(hub: Hub, keys: seq<string>, p: Picture, ids: map<string, Ref>)
    requires forall k | k in ids ::
               RefExplained(hub, p.menus, NewMenus(hub, Creates(hub, keys, p.menus), p.nextId), true, k, ids[k])
    ensures Grounded(ids, Ensured(hub, keys, p).menus)
  {
    var created := NewMenus(hub, Creates(hub, keys, p.menus), p.nextId);
    var menus := p.menus + created;
    forall k | k in ids ensures ids[k].Real? && Exists(menus, ids[k].id) {
      LastIdMeaning(p.menus, MenuName(hub, k));
      assert RefExplained(hub, p.menus, created, true, k, ids[k]);
      assert Menu(MenuName(hub, k), ids[k].id) in menus;
    }
  }

  function LinkOf(links: map<string, nat>, u: string): Option<nat> {
    if u in links then Some(links[u]) else None
  }

  // The last group that names a user decides; nobody else's link changes.
  lemma {:induction false} LinkedAllMeaning(hub: Hub, ids: map<string, Ref>, groups: Assignments,
                                            links: map<string, nat>, u: string)
    ensures (forall i | 0 <= i < |groups| :: u !in groups[i].users) ==>
              LinkOf(LinkedAll(hub, ids, groups, links), u) == LinkOf(links, u)
    ensures (exists i | 0 <= i < |groups| :: u in groups[i].users) ==>
              exists i | 0 <= i < |groups| :: u in groups[i].users
                && LinkOf(LinkedAll(hub, ids, groups, links), u) == Target(hub, ids, groups[i].key)
  {
    if groups != [] {
      var n := |groups| - 1;
      LinkedAllMeaning(hub, ids, groups[..n], links, u);
      RelinkedLink(LinkedAll(hub, ids, groups[..n], links), groups[n].users, Target(hub, ids, groups[n].key), u);
      hide Target, Relinked, LinkOf;
      if u !in groups[n].users {
        assert forall i | 0 <= i < n :: groups[..n][i] == groups[i];
      }
    }
  }

  lemma RelinkedLink(links: map<string, nat>, users: seq<string>, id: Option<nat>, u: string)
    ensures LinkOf(Relinked(links, users, id), u) == if u in users then id else LinkOf(links, u)
  {
  }

  lemma LinksPointAtKept(hub: Hub, groups: Assignments, ids: map<string, Ref>, p: Picture, q: Picture)
    requires ids == MenuIds(hub, PlanVariants(hub, groups), p.menus, p.nextId, true)
    requires q.defaultId.Some? ==> Real(q.defaultId.value) in ids.Values
    requires exists links :: q.links == LinkedAll(hub, ids, groups, links)
    ensures PointsAtKept(q, ids, Users(groups))
  {
    hide MenuIds;
    var links :| q.links == LinkedAll(hub, ids, groups, links);
    forall u | u in Users(groups) && u in q.links ensures Real(q.links[u]) in ids.Values {
      LinkedAllMeaning(hub, ids, groups, links, u);
    }
  }

  // From channel p on, if it was good, every recorded state up to and including q is good.
  ghost predicate KeepsGood(p: Picture, past: seq<Picture>, q: Picture, history: seq<Picture>,
                            users: set<string>, others: seq<Menu>) {
    past <= history && (Good(p, users, others) ==> Good(q, users, others) && Trail(history, |past|, users, others))
  }

  lemma PlanNone(hub: Hub, existing: seq<Menu>, apply: bool, p: Picture)
    ensures Ensured(hub, [], p) == p && MenuIds(hub, [], existing, p.nextId, apply) == map[]
    ensures Desired(hub, []) == {} && Skips(hub, []) == [] && Creates(hub, [], existing) == []
  {
  }

  // One more variant in the plan.
  lemma PlanNext(hub: Hub, keys: seq<string>, key: string, existing: seq<Menu>, firstNew: nat, apply: bool)
    ensures Creates(hub, keys + [key], existing) ==
            if Fits(hub, key) && LastId(existing, MenuName(hub, key)).None? then Creates(hub, keys, existing) + [key]
            else Creates(hub, keys, existing)
    ensures Skips(hub, keys + [key]) == if Fits(hub, key) then Skips(hub, keys) else Skips(hub, keys) + [key]
    ensures Desired(hub, keys + [key]) ==
            if Fits(hub, key) then Desired(hub, keys) + {MenuName(hub, key)} else Desired(hub, keys)
    ensures MenuIds(hub, keys + [key], existing, firstNew, apply) ==
            var ids := MenuIds(hub, keys, existing, firstNew, apply);
            if !Fits(hub, key) then ids
            else match LastId(existing, MenuName(hub, key))
              case Some(id) => ids[key := Real(id)]
              case None => ids[key := if apply then Real(firstNew + |Creates(hub, keys, existing)|) else NewFor(key)]
    ensures IsStaffHub(MenuName(hub, key))
  {
    assert (keys + [key])[..|keys|] == keys;
    hide LastId;
  }

  lemma EnsuredNext(hub: Hub, keys: seq<string>, key: string, p: Picture)
    ensures Ensured(hub, keys, p).nextId == p.nextId + |Creates(hub, keys, p.menus)|
    ensures var e := Ensured(hub, keys, p);
            Ensured(hub, keys + [key], p) ==
              if Fits(hub, key) && LastId(p.menus, MenuName(hub, key)).None? then
                e.(menus := e.menus + [Menu(MenuName(hub, key), e.nextId)], nextId := e.nextId + 1)
              else e
  {
    hide Fits, LastId, MenuName;
    assert (keys + [key])[..|keys|] == keys;
    var c := Creates(hub, keys, p.menus);
    assert NewMenus(hub, c + [key], p.nextId) ==
      NewMenus(hub, c, p.nextId) + [Menu(MenuName(hub, key), p.nextId + |c|)];
  }

  lemma {:induction false} LastIdMeaning(menus: seq<Menu>, name: string)
    ensures LastId(menus, name).Some? ==> Menu(name, LastId(menus, name).value) in menus
    ensures LastId(menus, name).None? <==> forall m | m in menus :: m.name != name
  {
    if menus != [] {
      LastIdMeaning(menus[..|menus| - 1], name);
      assert menus == menus[..|menus| - 1] + [menus[|menus| - 1]];
    }
  }

  ghost predicate RefExplained(hub: Hub, existing: seq<Menu>, created: seq<Menu>, apply: bool, k: string, r: Ref) {
    match LastId(existing, MenuName(hub, k))
    case Some(id) => r == Real(id)
    case None => if apply then r.Real? && Menu(MenuName(hub, k), r.id) in created else r == NewFor(k)
  }

  lemma {:induction false} MenuIdsMeaning(hub: Hub, keys: seq<string>, existing: seq<Menu>, firstNew: nat, apply: bool)
    ensures var ids := MenuIds(hub, keys, existing, firstNew, apply);
            var created := NewMenus(hub, Creates(hub, keys, existing), firstNew);
            && ids.Keys == (set k | k in keys && Fits(hub, k))
            && (forall k | k in ids :: RefExplained(hub, existing, created, apply, k, ids[k]))
  {
    if keys != [] {
      var n := |keys| - 1;
      MenuIdsMeaning(hub, keys[..n], existing, firstNew, apply);
      assert keys == keys[..n] + [keys[n]];
      hide Fits, RefExplained, Creates, NewMenus, MenuIds;
      MenuIdsNext(hub, keys[..n], keys[n], existing, firstNew, apply);
    }
  }

  lemma MenuIdsNext(hub: Hub, before: seq<string>, key: string, existing: seq<Menu>, firstNew: nat, apply: bool)
    requires var ids := MenuIds(hub, before, existing, firstNew, apply);
             var created := NewMenus(hub, Creates(hub, before, existing), firstNew);
             && ids.Keys == (set k | k in before && Fits(hub, k))
             && (forall k | k in ids :: RefExplained(hub, existing, created, apply, k, ids[k]))
    ensures var ids := MenuIds(hub, before + [key], existing, firstNew, apply);
            var created := NewMenus(hub, Creates(hub, before + [key], existing), firstNew);
            && ids.Keys == (set k | k in before + [key] && Fits(hub, k))
            && (forall k | k in ids :: RefExplained(hub, existing, created, apply, k, ids[k]))
  {
    hide LastId, Fits, MenuName, RefExplained, Creates, NewMenus, MenuIds, Skips, Desired;
    PlanNext(hub, before, key, existing, firstNew, apply);
    var c0, c1 := Creates(hub, before, existing), Creates(hub, before + [key], existing);
    NewMenusGrow(hub, c0, c1, firstNew);
    var was := MenuIds(hub, before, existing, firstNew, apply);
    var created := NewMenus(hub, c1, firstNew);
    RefOfKey(hub, existing, c0, created, firstNew, apply, key);
    forall k | k in was ensures RefExplained(hub, existing, created, apply, k, was[k]) {
      RefLater(hub, existing, NewMenus(hub, c0, firstNew), created, apply, k, was[k]);
    }
  }

  // The reference the plan gives a key.
  lemma RefOfKey(hub: Hub, existing: seq<Menu>, c0: seq<string>, created: seq<Menu>, firstNew: nat, apply: bool,
                 key: string)
    ensures LastId(existing, MenuName(hub, key)).Some? || Menu(MenuName(hub, key), firstNew + |c0|) in created ==>
            match LastId(existing, MenuName(hub, key))
            case Some(id) => RefExplained(hub, existing, created, apply, key, Real(id))
            case None =>
              RefExplained(hub, existing, created, apply, key, if apply then Real(firstNew + |c0|) else NewFor(key))
  {
    hide LastId, MenuName;
  }

  lemma RefLater(hub: Hub, existing: seq<Menu>, c0: seq<Menu>, c1: seq<Menu>, apply: bool, k: string, r: Ref)
    requires RefExplained(hub, existing, c0, apply, k, r) && forall m | m in c0 :: m in c1
    ensures RefExplained(hub, existing, c1, apply, k, r)
  {
    hide LastId, MenuName;
  }

  lemma NewMenusGrow(hub: Hub, c0: seq<string>, c1: seq<string>, firstNew: nat)
    requires c0 <= c1
    ensures forall m | m in NewMenus(hub, c0, firstNew) :: m in NewMenus(hub, c1, firstNew)
    ensures |c0| < |c1| ==> Menu(MenuName(hub, c1[|c0|]), firstNew + |c0|) in NewMenus(hub, c1, firstNew)
  {
    forall m | m in NewMenus(hub, c0, firstNew) ensures m in NewMenus(hub, c1, firstNew) {
      var i :| 0 <= i < |c0| && NewMenus(hub, c0, firstNew)[i] == m;
      assert NewMenus(hub, c1, firstNew)[i] == m;
    }
    if |c0| < |c1| {
      assert NewMenus(hub, c1, firstNew)[|c0|] == Menu(MenuName(hub, c1[|c0|]), firstNew + |c0|);
    }
  }

  /** The code keeps a listed menu when its name is desired and its id was chosen; since ids are
      distinct that is so exactly when it is the last listed menu of a desired name. */
  lemma KeptMeaning(hub: Hub, keys: seq<string>, existing: seq<Menu>, firstNew: nat, apply: bool, i: nat)
    requires i < |existing| && DistinctIds(existing) && NewerThan(existing, firstNew)
    ensures Real(existing[i].id) in MenuIds(hub, keys, existing, firstNew, apply).Values <==>
            existing[i].name in Desired(hub, keys) && LastId(existing, existing[i].name) == Some(existing[i].id)
  {
    var ids, m := MenuIds(hub, keys, existing, firstNew, apply), existing[i];
    MenuIdsMeaning(hub, keys, existing, firstNew, apply);
    hide MenuIds, LastId, MenuName, Fits;
    if Real(m.id) in ids.Values {
      var k :| k in ids && ids[k] == Real(m.id);
      assert RefExplained(hub, existing, NewMenus(hub, Creates(hub, keys, existing), firstNew), apply, k, ids[k]);
      LastIdMeaning(existing, MenuName(hub, k));
      assert LastId(existing, MenuName(hub, k)) == Some(m.id);
      var j :| 0 <= j < |existing| && existing[j] == Menu(MenuName(hub, k), m.id);
      assert j == i;
    }
    if m.name in Desired(hub, keys) && LastId(existing, m.name) == Some(m.id) {
      var k :| k in keys && Fits(hub, k) && m.name == MenuName(hub, k);
      assert ids[k] == Real(m.id);
    }
  }

  lemma KeptTest(hub: Hub, keys: seq<string>, existing: seq<Menu>, firstNew: nat, apply: bool, i: nat)
    requires i < |existing| && DistinctIds(existing) && NewerThan(existing, firstNew)
    ensures var m := existing[i];
            IsStale(hub, keys, existing, m) <==>
            IsStaffHub(m.name) && !(m.name in Desired(hub, keys)
              && Real(m.id) in MenuIds(hub, keys, existing, firstNew, apply).Values)
  {
    hide MenuIds, LastId, Desired;
    KeptMeaning(hub, keys, existing, firstNew, apply, i);
  }

  lemma {:induction false} StaleMembers(hub: Hub, keys: seq<string>, existing: seq<Menu>, n: nat)
    requires n <= |existing|
    ensures forall id :: id in Stale(hub, keys, existing, existing[..n]) <==>
              exists j | 0 <= j < n :: existing[j].id == id && IsStale(hub, keys, existing, existing[j])
  {
    if n > 0 {
      StaleMembers(hub, keys, existing, n - 1);
      StaleNext(hub, keys, existing, n - 1);
      hide IsStale, Stale;
    }
  }

  // No stale menu is one the run works with, and all of them are staffhub menus.
  lemma StaleIsUnused(hub: Hub, keys: seq<string>, existing: seq<Menu>, firstNew: nat, n: nat, p: Picture, id: nat)
    requires n <= |existing| && existing <= p.menus && DistinctIds(p.menus) && NewerThan(existing, firstNew)
    requires id in Stale(hub, keys, existing, existing[..n])
    ensures Real(id) !in MenuIds(hub, keys, existing, firstNew, true).Values
    ensures forall m | m in p.menus && m.id == id :: IsStaffHub(m.name)
  {
    StaleMembers(hub, keys, existing, n);
    var j :| 0 <= j < n && existing[j].id == id && IsStale(hub, keys, existing, existing[j]);
    hide MenuIds, LastId, Desired, Stale;
    KeptMeaning(hub, keys, existing, firstNew, true, j);
    assert p.menus[j] == existing[j];
  }

  lemma StaleStep(hub: Hub, keys: seq<string>, existing: seq<Menu>, firstNew: nat, apply: bool, i: nat,
                  p: Picture, users: set<string>)
    requires i < |existing| && existing <= p.menus && WellKept(p) && NewerThan(existing, firstNew)
    requires apply ==> PointsAtKept(p, MenuIds(hub, keys, existing, firstNew, true), users)
    ensures var m := existing[i];
            var before := Stale(hub, keys, existing, existing[..i]);
            var stale := IsStaffHub(m.name)
              && !(m.name in Desired(hub, keys) && Real(m.id) in MenuIds(hub, keys, existing, firstNew, apply).Values);
            var q := p.(menus := Without(p.menus, Elements(before)));
            && Stale(hub, keys, existing, existing[..i + 1]) == before + (if stale then [m.id] else [])
            && Without(p.menus, Elements(before + [m.id])) == Without(q.menus, {m.id})
            && (stale && apply ==> Deletes(q, q.(menus := Without(q.menus, {m.id})), m.id, users))
  {
    hide Stale, Without, MenuIds, Desired, IsStale, PointsAtKept, Deletes, Exists;
    var m, before := existing[i], Stale(hub, keys, existing, existing[..i]);
    StaleNext(hub, keys, existing, i);
    KeptTest(hub, keys, existing, firstNew, apply, i);
    assert Elements(before + [m.id]) == Elements(before) + {m.id};
    WithoutTwice(p.menus, Elements(before), {m.id});
    if apply && IsStale(hub, keys, existing, m) {
      StaleDeletes(hub, keys, existing, firstNew, i, p, users);
    }
  }

  // Deleting the next stale menu, after those before it.
  lemma StaleDeletes(hub: Hub, keys: seq<string>, existing: seq<Menu>, firstNew: nat, i: nat,
                     p: Picture, users: set<string>)
    requires i < |existing| && existing <= p.menus && WellKept(p) && NewerThan(existing, firstNew)
    requires PointsAtKept(p, MenuIds(hub, keys, existing, firstNew, true), users)
    requires IsStale(hub, keys, existing, existing[i])
    ensures var m := existing[i];
            var q := p.(menus := Without(p.menus, Elements(Stale(hub, keys, existing, existing[..i]))));
            Deletes(q, q.(menus := Without(q.menus, {m.id})), m.id, users)
  {
    var m, gone := existing[i], Elements(Stale(hub, keys, existing, existing[..i]));
    StaleMembers(hub, keys, existing, i);
    StaleNext(hub, keys, existing, i);
    WithoutKeeps(p.menus, gone);
    hide Stale, Without, MenuIds, IsStale, IsStaffHub;
    StaleIsUnused(hub, keys, existing, firstNew, i + 1, p, m.id);
    assert p.menus[i] == m;
  }

  // ---------- Convergence ----------

  ghost predicate ValidAssignments(groups: Assignments) {
    forall i, j | 0 <= i < j < |groups| ::
      groups[i].key != groups[j].key && forall u | u in groups[i].users :: u !in groups[j].users
  }

  // The menu the users of a variant should see, found by its name.
  function Home(hub: Hub, menus: seq<Menu>, key: string): Option<nat> {
    if Fits(hub, key) then LastId(menus, MenuName(hub, key))
    else if Fits(hub, BASE) then LastId(menus, MenuName(hub, BASE))
    else None
  }

  // The staffhub menus are exactly one per deployable variant.
  ghost predicate MenusConverged(hub: Hub, keys: seq<string>, menus: seq<Menu>) {
    && (forall m | m in menus && IsStaffHub(m.name) :: m.name in Desired(hub, keys))
    && (forall k | k in keys && Fits(hub, k) :: LastId(menus, MenuName(hub, k)).Some?)
    && (forall m1, m2 | m1 in menus && m2 in menus && IsStaffHub(m1.name) && m1.name == m2.name :: m1 == m2)
  }

  ghost predicate Converged(hub: Hub, groups: Assignments, p: Picture) {
    && MenusConverged(hub, PlanVariants(hub, groups), p.menus)
    && p.defaultId == Home(hub, p.menus, BASE)
    && (forall i, u | 0 <= i < |groups| && u in groups[i].users ::
      LinkOf(p.links, u) == Home(hub, p.menus, groups[i].key))
  }

  ghost predicate NoRepeats(s: seq<string>) {
    forall i, j | 0 <= i < j < |s| :: s[i] != s[j]
  }

  lemma {:induction false} OtherKeysDistinct(groups: Assignments)
    requires ValidAssignments(groups)
    ensures NoRepeats(OtherKeys(groups))
  {
    if groups != [] {
      var n := |groups| - 1;
      OtherKeysDistinct(groups[..n]);
      OtherKeysMembers(groups[..n]);
      var rest := OtherKeys(groups[..n]);
      assert groups[n].key !in rest;
      assert OtherKeys(groups) == rest || OtherKeys(groups) == rest + [groups[n].key];
    }
  }

  lemma {:induction false} CreatesMeaning(hub: Hub, keys: seq<string>, existing: seq<Menu>)
    requires NoRepeats(keys)
    ensures forall k :: k in Creates(hub, keys, existing) <==>
              k in keys && Fits(hub, k) && LastId(existing, MenuName(hub, k)).None?
    ensures NoRepeats(Creates(hub, keys, existing))
  {
    if keys != [] {
      var n := |keys| - 1;
      CreatesMeaning(hub, keys[..n], existing);
      assert keys == keys[..n] + [keys[n]];
      hide LastId, Fits, MenuName;
      var rest := Creates(hub, keys[..n], existing);
      assert keys[n] !in rest;
      assert Creates(hub, keys, existing) == rest || Creates(hub, keys, existing) == rest + [keys[n]];
    }
  }

  lemma NewMenusMeaning(hub: Hub, keys: seq<string>, existing: seq<Menu>, firstNew: nat, m: Menu)
    requires ValidHub(hub) && NoRepeats(keys)
    requires m in NewMenus(hub, Creates(hub, keys, existing), firstNew)
    ensures m.id >= firstNew && IsStaffHub(m.name) && m.name in Desired(hub, keys)
    ensures forall x | x in existing :: x.name != m.name
    ensures forall x | x in NewMenus(hub, Creates(hub, keys, existing), firstNew) && x.name == m.name :: x == m
  {
    var c := Creates(hub, keys, existing);
    CreatesMeaning(hub, keys, existing);
    hide Creates;
    var i :| 0 <= i < |c| && NewMenus(hub, c, firstNew)[i] == m;
    LastIdMeaning(existing, m.name);
    NamesAreInjective(hub, c[i], c[i]);
    forall x | x in NewMenus(hub, c, firstNew) && x.name == m.name ensures x == m {
      var j :| 0 <= j < |c| && NewMenus(hub, c, firstNew)[j] == x;
      NamesAreInjective(hub, c[i], c[j]);
    }
  }

  // A listed menu's id is stale exactly when the menu is; a created menu's id never is.
  lemma StaleIdMeaning(hub: Hub, keys: seq<string>, p: Picture, m: Menu)
    requires WellKept(p)
    ensures m in p.menus ==> (m.id in Stale(hub, keys, p.menus, p.menus) <==> IsStale(hub, keys, p.menus, m))
    ensures m.id >= p.nextId ==> m.id !in Stale(hub, keys, p.menus, p.menus)
  {
    StaleMembers(hub, keys, p.menus, |p.menus|);
    assert p.menus[..|p.menus|] == p.menus;
    hide IsStale, Stale;
  }

  // What is left after the stale menus are gone.
  lemma SurvivorMeaning(hub: Hub, keys: seq<string>, p: Picture, m: Menu)
    requires WellKept(p)
    ensures var e := Ensured(hub, keys, p);
            m in Without(e.menus, Elements(Stale(hub, keys, p.menus, p.menus))) <==>
            || m in NewMenus(hub, Creates(hub, keys, p.menus), p.nextId)
            || (m in p.menus && !IsStale(hub, keys, p.menus, m))
  {
    var created := NewMenus(hub, Creates(hub, keys, p.menus), p.nextId);
    assert m in created ==> m.id >= p.nextId;
    hide Creates, NewMenus, IsStale, Stale, Without, WellKept, Exists;
    WithoutMembers(p.menus + created, Elements(Stale(hub, keys, p.menus, p.menus)), m);
    StaleIdMeaning(hub, keys, p, m);
  }

  lemma {:induction false} WithoutMembers(menus: seq<Menu>, ids: set<nat>, m: Menu)
    ensures m in Without(menus, ids) <==> m in menus && m.id !in ids
  {
    if menus != [] {
      WithoutMembers(menus[..|menus| - 1], ids, m);
      assert menus == menus[..|menus| - 1] + [menus[|menus| - 1]];
    }
  }

  lemma PlanDistinct(hub: Hub, groups: Assignments)
    requires ValidAssignments(groups)
    ensures NoRepeats(PlanVariants(hub, groups))
  {
    OtherKeysDistinct(groups);
    OtherKeysMembers(groups);
    hide OtherKeys;
    assert BASE !in OtherKeys(groups);
  }

  lemma SurvivorsConverged(hub: Hub, groups: Assignments, p: Picture)
    requires ValidHub(hub) && WellKept(p) && ValidAssignments(groups)
    ensures var keys := PlanVariants(hub, groups);
            MenusConverged(hub, keys,
              Without(Ensured(hub, keys, p).menus, Elements(Stale(hub, keys, p.menus, p.menus))))
  {
    var keys := PlanVariants(hub, groups);
    PlanDistinct(hub, groups);
    hide PlanVariants;
    var menus := Without(Ensured(hub, keys, p).menus, Elements(Stale(hub, keys, p.menus, p.menus)));
    forall m ensures m in menus <==>
      m in NewMenus(hub, Creates(hub, keys, p.menus), p.nextId) || (m in p.menus && !IsStale(hub, keys, p.menus, m))
    {
      SurvivorMeaning(hub, keys, p, m);
    }
    MenusConvergedFrom(hub, keys, p, menus);
  }

  lemma MenusConvergedFrom(hub: Hub, keys: seq<string>, p: Picture, menus: seq<Menu>)
    requires ValidHub(hub) && WellKept(p) && NoRepeats(keys)
    requires forall m :: m in menus <==>
      m in NewMenus(hub, Creates(hub, keys, p.menus), p.nextId) || (m in p.menus && !IsStale(hub, keys, p.menus, m))
    ensures MenusConverged(hub, keys, menus)
  {
    var created := NewMenus(hub, Creates(hub, keys, p.menus), p.nextId);
    hide Creates, NewMenus, LastId, Desired;
    forall m | m in created
      ensures m.name in Desired(hub, keys) && (forall x | x in p.menus :: x.name != m.name)
              && forall x | x in created && x.name == m.name :: x == m
    {
      NewMenusMeaning(hub, keys, p.menus, p.nextId, m);
    }
    forall k | k in keys && Fits(hub, k) ensures LastId(menus, MenuName(hub, k)).Some? {
      var m := KeptOrCreated(hub, keys, p, k);
      LastIdMeaning(menus, MenuName(hub, k));
    }
  }

  // The menu a deployable variant ends up with.
  lemma KeptOrCreated(hub: Hub, keys: seq<string>, p: Picture, k: string) returns (m: Menu)
    requires ValidHub(hub) && k in keys && Fits(hub, k)
    ensures m.name == MenuName(hub, k)
    ensures MenuIds(hub, keys, p.menus, p.nextId, true).Keys >= {k}
    ensures MenuIds(hub, keys, p.menus, p.nextId, true)[k] == Real(m.id)
    ensures m in NewMenus(hub, Creates(hub, keys, p.menus), p.nextId)
            || (m in p.menus && !IsStale(hub, keys, p.menus, m))
  {
    MenuIdsMeaning(hub, keys, p.menus, p.nextId, true);
    var ids := MenuIds(hub, keys, p.menus, p.nextId, true);
    hide MenuIds, Creates, NewMenus;
    assert RefExplained(hub, p.menus, NewMenus(hub, Creates(hub, keys, p.menus), p.nextId), true, k, ids[k]);
    LastIdMeaning(p.menus, MenuName(hub, k));
    hide LastId;
    m := Menu(MenuName(hub, k), ids[k].id);
  }

  // The ids the run works with are the ones their names stand for in these menus.
  ghost predicate Matches(hub: Hub, ids: map<string, Ref>, menus: seq<Menu>) {
    forall k | k in ids :: ids[k].Real? && LastId(menus, MenuName(hub, k)) == Some(ids[k].id)
  }

  ghost predicate IsGroupKey(groups: Assignments, key: string) {
    exists i | 0 <= i < |groups| :: groups[i].key == key
  }

  lemma TargetIsHome(hub: Hub, groups: Assignments, ids: map<string, Ref>, menus: seq<Menu>, key: string)
    requires !BaseOverflows(hub) && (key == BASE || IsGroupKey(groups, key))
    requires ids.Keys == (set k | k in PlanVariants(hub, groups) && Fits(hub, k))
    requires Matches(hub, ids, menus)
    ensures Target(hub, ids, key) == Home(hub, menus, key)
  {
    OtherKeysMembers(groups);
    hide OtherKeys, LastId, MenuName;
  }

  // A user's link after the linking loop, when nobody is in two groups.
  lemma LinkedHome(hub: Hub, groups: Assignments, ids: map<string, Ref>, menus: seq<Menu>, links: map<string, nat>,
                   i: nat, u: string)
    requires !BaseOverflows(hub) && ValidAssignments(groups)
    requires ids.Keys == (set k | k in PlanVariants(hub, groups) && Fits(hub, k))
    requires Matches(hub, ids, menus) && i < |groups| && u in groups[i].users
    ensures LinkOf(LinkedAll(hub, ids, groups, links), u) == Home(hub, menus, groups[i].key)
  {
    hide Matches, PlanVariants, Home, Target, Fits, LinkedAll, LinkOf;
    LinkedAllMeaning(hub, ids, groups, links, u);
    var j :| 0 <= j < |groups| && u in groups[j].users
             && LinkOf(LinkedAll(hub, ids, groups, links), u) == Target(hub, ids, groups[j].key);
    assert i == j;
    TargetIsHome(hub, groups, ids, menus, groups[i].key);
  }

  // In converged menus the run's ids are what the names stand for.
  lemma SurvivorsMatch(hub: Hub, groups: Assignments, p: Picture, menus: seq<Menu>)
    requires ValidHub(hub) && WellKept(p) && ValidAssignments(groups)
    requires var keys := PlanVariants(hub, groups);
             menus == Without(Ensured(hub, keys, p).menus, Elements(Stale(hub, keys, p.menus, p.menus)))
    ensures Matches(hub, MenuIds(hub, PlanVariants(hub, groups), p.menus, p.nextId, true), menus)
  {
    var keys := PlanVariants(hub, groups);
    var ids := MenuIds(hub, keys, p.menus, p.nextId, true);
    SurvivorsConverged(hub, groups, p);
    MenuIdsMeaning(hub, keys, p.menus, p.nextId, true);
    hide PlanVariants, MenuIds, Creates, NewMenus, Stale, Without, Ensured, LastId, IsStale;
    forall k | k in ids ensures ids[k].Real? && LastId(menus, MenuName(hub, k)) == Some(ids[k].id) {
      var m := KeptOrCreated(hub, keys, p, k);
      SurvivorMeaning(hub, keys, p, m);
      LastIdMeaning(menus, MenuName(hub, k));
      NamesAreInjective(hub, k, k);
    }
  }

  /** An applied run converges: one menu per deployable variant, base the default, and every
      assigned user on their own variant, else base, else nothing. Nobody else's link and no
      other menu is touched. */
  lemma SyncedConverges(hub: Hub, groups: Assignments, p: Picture)
    requires ValidHub(hub) && WellKept(p) && ValidAssignments(groups) && !BaseOverflows(hub)
    ensures Converged(hub, groups, Synced(hub, groups, p))
    ensures forall u | u !in Users(groups) :: LinkOf(Synced(hub, groups, p).links, u) == LinkOf(p.links, u)
  {
    var keys := PlanVariants(hub, groups);
    var ids, q := MenuIds(hub, keys, p.menus, p.nextId, true), Synced(hub, groups, p);
    SurvivorsConverged(hub, groups, p);
    SurvivorsMatch(hub, groups, p, q.menus);
    MenuIdsMeaning(hub, keys, p.menus, p.nextId, true);
    hide PlanVariants, MenuIds, Ensured, Stale, Without, LinkedAll, Matches, MenusConverged, Home, Target, LinkOf;
    TargetIsHome(hub, groups, ids, q.menus, BASE);
    forall i, u | 0 <= i < |groups| && u in groups[i].users
      ensures LinkOf(q.links, u) == Home(hub, q.menus, groups[i].key)
    {
      LinkedHome(hub, groups, ids, q.menus, p.links, i, u);
    }
    forall u | u !in Users(groups) ensures LinkOf(q.links, u) == LinkOf(p.links, u) {
      LinkedAllMeaning(hub, ids, groups, p.links, u);
    }
  }

  // ---------- What people see ----------

  // The menu is the one for variant k with the content hub gives it now.
  predicate Shows(hub: Hub, m: Menu, k: string) {
    m.name == "staffhub:" + k + ":" + hub.signature(k)
  }

  // base and the variants of the groups, as far as a layout takes their buttons.
  ghost predicate Deployed(hub: Hub, groups: Assignments, k: string) {
    1 <= hub.buttons(k) <= 8 && (k == "base" || exists i | 0 <= i < |groups| :: groups[i].key == k)
  }

  // Whoever belongs to `key` sees its menu, else the base menu, else none.
  function Variant(hub: Hub, key: string): string {
    if 1 <= hub.buttons(key) <= 8 then key else "base"
  }

  ghost predicate Sees(hub: Hub, menus: seq<Menu>, link: Option<nat>, key: string) {
    var k := Variant(hub, key);
    if 1 <= hub.buttons(k) <= 8 then exists m :: m in menus && link == Some(m.id) && Shows(hub, m, k)
    else link == None
  }

  lemma NamesShow(hub: Hub, k: string, m: Menu)
    ensures Shows(hub, m, k) <==> m.name == MenuName(hub, k)
    ensures "staffhub:" <= m.name <==> IsStaffHub(m.name)
  {
  }

  lemma InPlan(hub: Hub, groups: Assignments, k: string)
    ensures Deployed(hub, groups, k) <==> k in PlanVariants(hub, groups) && Fits(hub, k)
  {
    OtherKeysMembers(groups);
    hide OtherKeys;
  }

  lemma HomeIsSeen(hub: Hub, menus: seq<Menu>, key: string)
    requires hub.buttons("base") <= 8
    requires forall k | Fits(hub, k) && (k == key || k == BASE) :: LastId(menus, MenuName(hub, k)).Some?
    ensures Sees(hub, menus, Home(hub, menus, key), key)
  {
    var k := Variant(hub, key);
    if Fits(hub, k) {
      LastIdMeaning(menus, MenuName(hub, k));
      var m := Menu(MenuName(hub, k), LastId(menus, MenuName(hub, k)).value);
      assert m in menus && Shows(hub, m, k);
    }
    hide LastId, MenuName, Shows;
  }

  ghost predicate UserSees(hub: Hub, q: Picture, u: string, key: string) {
    Sees(hub, q.menus, if u in q.links then Some(q.links[u]) else None, key)
  }

  // Every staffhub menu is a deployed variant's with its present content, and everybody sees theirs.
  ghost predicate ShowsContent(hub: Hub, groups: Assignments, q: Picture) {
    && (forall m | m in q.menus && "staffhub:" <= m.name :: exists k :: Deployed(hub, groups, k) && Shows(hub, m, k))
    && Sees(hub, q.menus, q.defaultId, "base")
    && (forall i, u | 0 <= i < |groups| && u in groups[i].users :: UserSees(hub, q, u, groups[i].key))
  }

  /** What a run is for: every staffhub menu it leaves carries the name of a deployed variant with the
      signature of that variant's present content; the default is the one of base; and every assigned user is
      linked to the one of their own variant, else of base, else to none. */
  lemma MenusShowContent(hub: Hub, groups: Assignments, p: Picture)
    requires ValidHub(hub) && WellKept(p) && ValidAssignments(groups) && hub.buttons("base") <= 8
    ensures ShowsContent(hub, groups, Synced(hub, groups, p))
  {
    hide ShowsContent, Converged, Synced, ValidHub, WellKept, ValidAssignments;
    SyncedConverges(hub, groups, p);
    ConvergedShows(hub, groups, Synced(hub, groups, p));
  }

  lemma ConvergedShows(hub: Hub, groups: Assignments, q: Picture)
    requires Converged(hub, groups, q) && hub.buttons("base") <= 8
    ensures ShowsContent(hub, groups, q)
  {
    hide PlanVariants, Home, Sees, Shows, MenusConverged, Deployed, LinkOf, LastId, MenuName, Fits;
    NamesAreDeployed(hub, groups, q.menus);
    PlanHomes(hub, groups, q.menus, BASE);
    HomeIsSeen(hub, q.menus, BASE);
    forall i, u | 0 <= i < |groups| && u in groups[i].users ensures UserSees(hub, q, u, groups[i].key) {
      PlanHomes(hub, groups, q.menus, groups[i].key);
      HomeIsSeen(hub, q.menus, groups[i].key);
      LinkText(q.links, u);
    }
  }

  lemma LinkText(links: map<string, nat>, u: string)
    ensures LinkOf(links, u) == if u in links then Some(links[u]) else None
  {
  }

  lemma NamesAreDeployed(hub: Hub, groups: Assignments, menus: seq<Menu>)
    requires MenusConverged(hub, PlanVariants(hub, groups), menus)
    ensures forall m | m in menus && "staffhub:" <= m.name :: exists k :: Deployed(hub, groups, k) && Shows(hub, m, k)
  {
    var keys := PlanVariants(hub, groups);
    hide PlanVariants, Shows, LastId, Fits, MenuName, Deployed, IsStaffHub;
    forall m | m in menus && "staffhub:" <= m.name
      ensures exists k :: Deployed(hub, groups, k) && Shows(hub, m, k)
    {
      NamesShow(hub, "", m);
      var k :| k in keys && Fits(hub, k) && m.name == MenuName(hub, k);
      NamesShow(hub, k, m);
      InPlan(hub, groups, k);
    }
  }

  // Where menus have converged, a deployable key of the plan has its menu.
  lemma PlanHomes(hub: Hub, groups: Assignments, menus: seq<Menu>, key: string)
    requires MenusConverged(hub, PlanVariants(hub, groups), menus)
    requires key == "base" || exists i | 0 <= i < |groups| :: groups[i].key == key
    ensures forall k | Fits(hub, k) && (k == key || k == BASE) :: LastId(menus, MenuName(hub, k)).Some?
  {
    InPlan(hub, groups, key);
    InPlan(hub, groups, BASE);
    hide PlanVariants, LastId, MenuName;
  }

  // The same name comes from the same variant with the same content.
  lemma NameTells(hub1: Hub, k1: string, hub2: Hub, k2: string, m: Menu)
    requires ValidHub(hub1) && ValidHub(hub2) && Shows(hub1, m, k1) && Shows(hub2, m, k2)
    ensures k1 == k2 && hub1.signature(k1) == hub2.signature(k2)
  {
    var n := |m.name|;
    assert m.name[9..n - 13] == k1 && m.name[n - 12..] == hub1.signature(k1);
    assert m.name[9..n - 13] == k2 && m.name[n - 12..] == hub2.signature(k2);
  }

  // A menu with a variant's former content.
  lemma OutdatedIsStale(hub1: Hub, hub2: Hub, groups: Assignments, q: Picture, k: string, m: Menu)
    requires ValidHub(hub1) && ValidHub(hub2) && WellKept(q) && hub2.buttons("base") <= 8
    requires hub2.signature(k) != hub1.signature(k) && m in q.menus && Shows(hub1, m, k)
    ensures m.id in PlannedReport(hub2, groups, q.menus).deleted
  {
    var keys := PlanVariants(hub2, groups);
    assert IsStale(hub2, keys, q.menus, m) by {
      NamesShow(hub1, k, m);
      NamesAreInjective(hub1, k, k);
      hide PlanVariants, LastId, MenuName, Shows, ValidHub;
      if k2 :| k2 in keys && Fits(hub2, k2) && m.name == MenuName(hub2, k2) {
        NamesShow(hub2, k2, m);
        NameTells(hub1, k, hub2, k2, m);
      }
    }
    hide PlanVariants, IsStale, Stale, ValidHub, Creates, Skips;
    StaleIdMeaning(hub2, keys, q, m);
  }

  // No menu shows the new content yet.
  lemma NewContentIsMissing(hub1: Hub, hub2: Hub, groups: Assignments, menus: seq<Menu>, k: string)
    requires ValidHub(hub1) && ValidHub(hub2) && hub2.buttons("base") <= 8
    requires hub2.signature(k) != hub1.signature(k) && Deployed(hub2, groups, k) && ValidAssignments(groups)
    requires forall m | m in menus && "staffhub:" <= m.name :: exists k1 :: Shows(hub1, m, k1)
    ensures k in PlannedReport(hub2, groups, menus).created
  {
    InPlan(hub2, groups, k);
    PlanDistinct(hub2, groups);
    CreatesMeaning(hub2, PlanVariants(hub2, groups), menus);
    LastIdMeaning(menus, MenuName(hub2, k));
    hide PlanVariants, LastId, Creates, Skips, Stale, Shows, MenuName, ValidHub, Deployed;
    if LastId(menus, MenuName(hub2, k)).Some? {
      var m := Menu(MenuName(hub2, k), LastId(menus, MenuName(hub2, k)).value);
      NamesShow(hub2, k, m);
      NamesAreInjective(hub2, k, k);
      var k1 :| Shows(hub1, m, k1);
      NameTells(hub1, k1, hub2, k, m);
    }
  }

  /** A change of content is redeployed: when a later run finds a deployed variant's content changed, it creates
      the variant's new menu and deletes the one that the default or the variant's users have. */
  lemma ChangeIsRedeployed(hub1: Hub, hub2: Hub, groups: Assignments, p: Picture, k: string)
    requires ValidHub(hub1) && ValidHub(hub2) && WellKept(p) && ValidAssignments(groups) && hub1.buttons("base") <= 8
    requires forall key :: hub2.buttons(key) == hub1.buttons(key)
    requires Deployed(hub1, groups, k) && hub2.signature(k) != hub1.signature(k)
    ensures var q := Synced(hub1, groups, p);
            var r := PlannedReport(hub2, groups, q.menus);
            && r.Done? && k in r.created
            && (k == "base" ==> q.defaultId.Some? && q.defaultId.value in r.deleted)
            && (forall i, u | 0 <= i < |groups| && u in groups[i].users && Variant(hub1, groups[i].key) == k ::
                  u in q.links && q.links[u] in r.deleted)
  {
    hide Synced, Shows, Sees, Deployed, ValidHub, WellKept, ValidAssignments, PlannedReport;
    var q := Synced(hub1, groups, p);
    MenusShowContent(hub1, groups, p);
    SyncedWellKept(hub1, groups, p);
    DeployedAgain(hub1, hub2, groups, k);
    NewContentIsMissing(hub1, hub2, groups, q.menus, k);
    ReportDone(hub2, groups, q.menus);
    var deleted := PlannedReport(hub2, groups, q.menus).deleted;
    forall m | m in q.menus && Shows(hub1, m, k) ensures m.id in deleted {
      OutdatedIsStale(hub1, hub2, groups, q, k, m);
    }
    if k == "base" {
      SeenMenu(hub1, q.menus, q.defaultId, "base");
    }
    forall i, u | 0 <= i < |groups| && u in groups[i].users && Variant(hub1, groups[i].key) == k
      ensures u in q.links && q.links[u] in deleted
    {
      assert UserSees(hub1, q, u, groups[i].key);
      SeenMenu(hub1, q.menus, if u in q.links then Some(q.links[u]) else None, groups[i].key);
    }
  }

  lemma SeenMenu(hub: Hub, menus: seq<Menu>, link: Option<nat>, key: string)
    requires Sees(hub, menus, link, key) && 1 <= hub.buttons(Variant(hub, key)) <= 8
    ensures exists m :: m in menus && link == Some(m.id) && Shows(hub, m, Variant(hub, key))
  {
  }

  lemma ReportDone(hub: Hub, groups: Assignments, menus: seq<Menu>)
    requires hub.buttons("base") <= 8
    ensures PlannedReport(hub, groups, menus).Done?
  {
  }

  lemma DeployedAgain(hub1: Hub, hub2: Hub, groups: Assignments, k: string)
    requires Deployed(hub1, groups, k) && forall key :: hub2.buttons(key) == hub1.buttons(key)
    ensures Deployed(hub2, groups, k) && 1 <= hub1.buttons(k) <= 8 && Variant(hub1, k) == k
  {
  }

  lemma FirstIsMember<T>(s: seq<T>)
    ensures s == [] || exists x :: x in s
  {
    assert s == [] || s[0] in s;
  }

  lemma UnassignedKept(hub: Hub, groups: Assignments, p: Picture, u: string)
    requires ValidHub(hub) && WellKept(p) && !BaseOverflows(hub)
    requires u !in Users(groups) && u in p.links && p.links[u] < p.nextId
    ensures var q := Synced(hub, groups, p);
            u in q.links && q.links[u] == p.links[u] &&
            (Exists(q.menus, q.links[u]) <==>
             Exists(p.menus, p.links[u]) && p.links[u] !in PlannedReport(hub, groups, p.menus).deleted)
  {
    var keys := PlanVariants(hub, groups);
    var ids, e := MenuIds(hub, keys, p.menus, p.nextId, true), Ensured(hub, keys, p);
    LinkedAllMeaning(hub, ids, groups, p.links, u);
    WithoutKeeps(e.menus, Elements(Stale(hub, keys, p.menus, p.menus)));
    hide MenuIds, Creates, Stale, Without, PlanVariants, LinkedAll;
    assert Exists(p.menus, p.links[u]) <==> Exists(e.menus, p.links[u]) by {
      if i :| 0 <= i < |p.menus| && p.menus[i].id == p.links[u] {
        assert e.menus[i].id == p.links[u];
      }
    }
  }

  /** The link of somebody the assignments do not mention is left alone; afterwards it names a menu
      exactly when, in the listing before the run, that menu is foreign or the last one listed under the
      name of a deployable variant of the plan. */
  lemma UnassignedDangles(hub: Hub, groups: Assignments, p: Picture, u: string)
    requires ValidHub(hub) && WellKept(p) && !BaseOverflows(hub)
    requires u !in Users(groups) && u in p.links && p.links[u] < p.nextId
    ensures var q := Synced(hub, groups, p);
            u in q.links && q.links[u] == p.links[u] &&
            (Exists(q.menus, q.links[u]) <==>
             exists m :: m in p.menus && m.id == p.links[u] && !IsStale(hub, PlanVariants(hub, groups), p.menus, m))
  {
    UnassignedKept(hub, groups, p, u);
    var keys := PlanVariants(hub, groups);
    hide PlanVariants, Synced, IsStale, Stale;
    forall m | m in p.menus && m.id == p.links[u]
      ensures m.id in Stale(hub, keys, p.menus, p.menus) <==> IsStale(hub, keys, p.menus, m)
      ensures Exists(p.menus, p.links[u])
    {
      StaleIdMeaning(hub, keys, p, m);
      var i :| 0 <= i < |p.menus| && p.menus[i] == m;
      assert p.menus[i].id == p.links[u];
    }
    if Exists(p.menus, p.links[u]) {
      var i :| 0 <= i < |p.menus| && p.menus[i].id == p.links[u];
      assert p.menus[i] in p.menus;
    }
  }

  /** Such a run: somebody unlinked from their record still wears an outdated menu, and the run deletes it. */
  lemma OutdatedLinkDangles()
    ensures var hub := Hub(_ => 1, _ => "0123456789ab");
            var p := Picture([Menu("staffhub:old", 0)], Some(0), map["U1" := 0], 1);
            && ValidHub(hub) && WellKept(p) && Safe(p, {"U1"})
            && "U1" in Synced(hub, [], p).links && !Exists(Synced(hub, [], p).menus, Synced(hub, [], p).links["U1"])
  {
    var hub := Hub(_ => 1, _ => "0123456789ab");
    var p := Picture([Menu("staffhub:old", 0)], Some(0), map["U1" := 0], 1);
    UnassignedKept(hub, [], p, "U1");
    assert PlanVariants(hub, []) == [BASE];
    assert MenuName(hub, BASE)[9] != "staffhub:old"[9];
    assert Stale(hub, [BASE], p.menus, []) == [];
    assert Stale(hub, [BASE], p.menus, p.menus) == [0];
    assert p.menus[0].id == 0;
  }

  // A converged channel needs nothing created or deleted.
  lemma NothingToDo(hub: Hub, groups: Assignments, p: Picture)
    requires ValidHub(hub) && WellKept(p) && ValidAssignments(groups)
    requires MenusConverged(hub, PlanVariants(hub, groups), p.menus)
    ensures Creates(hub, PlanVariants(hub, groups), p.menus) == []
    ensures Stale(hub, PlanVariants(hub, groups), p.menus, p.menus) == []
  {
    var keys := PlanVariants(hub, groups);
    PlanDistinct(hub, groups);
    CreatesMeaning(hub, keys, p.menus);
    StaleMembers(hub, keys, p.menus, |p.menus|);
    assert p.menus[..|p.menus|] == p.menus;
    hide PlanVariants, Creates, Stale, LastId, Desired;
    var creates, stale := Creates(hub, keys, p.menus), Stale(hub, keys, p.menus, p.menus);
    forall j | 0 <= j < |p.menus| ensures !IsStale(hub, keys, p.menus, p.menus[j]) {
      LastIdMeaning(p.menus, p.menus[j].name);
    }
    FirstIsMember(creates);
    FirstIsMember(stale);
  }

  lemma SameLinks(a: map<string, nat>, b: map<string, nat>)
    requires forall u :: LinkOf(a, u) == LinkOf(b, u)
    ensures a == b
  {
    assert forall u :: u in a <==> LinkOf(a, u).Some?;
    assert forall u :: u in b <==> LinkOf(b, u).Some?;
    assert forall u | u in a :: a[u] == LinkOf(a, u).value;
  }

  /** Idempotence: on a converged channel a run creates and deletes nothing and leaves the channel as it is. */
  lemma ConvergedIsFixed(hub: Hub, groups: Assignments, p: Picture)
    requires ValidHub(hub) && WellKept(p) && ValidAssignments(groups) && !BaseOverflows(hub)
    requires Converged(hub, groups, p)
    ensures Synced(hub, groups, p) == p
    ensures PlannedReport(hub, groups, p.menus).created == [] && PlannedReport(hub, groups, p.menus).deleted == []
  {
    var keys := PlanVariants(hub, groups);
    var ids, q := MenuIds(hub, keys, p.menus, p.nextId, true), Synced(hub, groups, p);
    NothingToDo(hub, groups, p);
    WithoutNothing(p.menus);
    assert NewMenus(hub, [], p.nextId) == [];
    assert Ensured(hub, keys, p) == p;
    assert Elements<nat>([]) == {};
    assert q.menus == p.menus && q.nextId == p.nextId;
    SurvivorsMatch(hub, groups, p, p.menus);
    MenuIdsMeaning(hub, keys, p.menus, p.nextId, true);
    hide PlanVariants, MenuIds, Creates, Ensured, Stale, Without, LinkedAll, Matches, MenusConverged, Home, Target,
      LinkOf;
    TargetIsHome(hub, groups, ids, p.menus, BASE);
    forall u ensures LinkOf(q.links, u) == LinkOf(p.links, u) {
      if i :| 0 <= i < |groups| && u in groups[i].users {
        LinkedHome(hub, groups, ids, p.menus, p.links, i, u);
      } else {
        LinkedAllMeaning(hub, ids, groups, p.links, u);
      }
    }
    SameLinks(q.links, p.links);
  }

  // A run keeps menu ids distinct and older than the next one, however the channel began.
  lemma SyncedWellKept(hub: Hub, groups: Assignments, p: Picture)
    requires ValidHub(hub) && WellKept(p)
    ensures WellKept(Synced(hub, groups, p))
  {
    EnsuredFacts(hub, groups, p, true);
    var keys := PlanVariants(hub, groups);
    var e, stale := Ensured(hub, keys, p), Elements(Stale(hub, keys, p.menus, p.menus));
    WithoutKeeps(e.menus, stale);
    WithoutDistinct(e.menus, stale);
    hide PlanVariants, Ensured, Stale, Without, Exists, MenuIds, LinkedAll, Grounded, NewerThan;
    var menus := Without(e.menus, stale);
    forall i | 0 <= i < |menus| ensures menus[i].id < e.nextId {
      assert menus[i] in e.menus;
    }
  }

  /** A second run over the same assignments creates and deletes nothing and leaves the channel, from
      wherever the first run started, as the first run left it. */
  lemma SecondRun(hub: Hub, groups: Assignments, p: Picture)
    requires ValidHub(hub) && WellKept(p) && ValidAssignments(groups) && !BaseOverflows(hub)
    ensures var q := Synced(hub, groups, p);
            && Synced(hub, groups, q) == q
            && PlannedReport(hub, groups, q.menus).created == [] && PlannedReport(hub, groups, q.menus).deleted == []
  {
    hide Synced, PlannedReport, Converged, WellKept, ValidAssignments;
    SyncedWellKept(hub, groups, p);
    SyncedConverges(hub, groups, p);
    ConvergedIsFixed(hub, groups, Synced(hub, groups, p));
  }
}
