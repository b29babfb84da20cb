/** Reconciling the database with the configuration (`config_sync` in crates/cli/src/sync.rs). The
    database tables are maps by id with the contracts of the repository operations; secrets appear only
    as readable or not. */
module ConfigSync {
  import opened Text
  import Scope

  /** A provider in the configuration; `settings` stands for the fields that are copied as they are. */
  datatype Provider = Provider(
    id: nat, enabled: bool, secretReadable: bool, scope: string, forwardLoginHint: bool,
    parameters: seq<(string, string)>, settings: string)

  datatype ProviderRow = ProviderRow(
    enabled: bool, createdAt: nat, scope: set<string>, forwardLoginHint: bool,
    parameters: seq<(string, string)>, uiOrder: nat, settings: string)

  datatype Client = Client(
    id: nat, secretReadable: bool, jwks: Option<string>, jwksUri: Option<string>, settings: string)

  datatype ClientRow = ClientRow(isStatic: bool, jwks: Option<string>, jwksUri: Option<string>, settings: string)

  /** What refers to a provider: a user's account there, or an authorization under way. */
  datatype Dependent = Link(provider: nat, subject: string) | AuthorizationSession(provider: nat, state: string)

  const I32_MAX: nat := 0x7FFF_FFFF
  const PAGE: nat := 1000

  function Get<V>(m: map<nat, V>, id: nat): Option<V> { if id in m then Some(m[id]) else None }

  lemma SameGets<V>(m: map<nat, V>, n: map<nat, V>)
    requires forall id :: Get(m, id) == Get(n, id)
    ensures m == n
  {
    forall id ensures id in m <==> id in n {
      assert Get(m, id) == Get(n, id);
    }
    forall id | id in m ensures m[id] == n[id] {
      assert Get(m, id) == Get(n, id);
    }
  }

  // ---------------------------------------------------------------- the page of existing providers

  /** The ids that one page of 1000 shows: the smallest ones. */
  ghost predicate IsPage(ids: set<nat>, page: set<nat>) {
    && page <= ids && |page| <= PAGE
    && (|page| < PAGE ==> page == ids)
    && forall p, q :: p in page && q in ids && q !in page ==> p < q
  }

  predicate IsLeastId(m: nat, ids: set<nat>) { m in ids && forall x :: x in ids ==> m <= x }

  lemma {:induction false} LeastId(ids: set<nat>)
    requires ids != {}
    ensures exists m :: IsLeastId(m, ids)
  {
    var x :| x in ids;
    if ids == {x} {
      assert IsLeastId(x, ids);
    } else {
      LeastId(ids - {x});
      var m :| IsLeastId(m, ids - {x});
      forall y | y in ids ensures m <= y || x <= y {
        assert y == x || y in ids - {x};
      }
      assert IsLeastId(if x < m then x else m, ids);
    }
  }

  /** The smallest ids have been taken. */
  ghost predicate Taken(ids: set<nat>, taken: set<nat>, rest: set<nat>) {
    taken + rest == ids && taken !! rest && forall p, q :: p in taken && q in rest ==> p < q
  }

  lemma TakeLeast(ids: set<nat>, taken: set<nat>, rest: set<nat>, m: nat)
    requires Taken(ids, taken, rest) && IsLeastId(m, rest)
    ensures Taken(ids, taken + {m}, rest - {m})
    ensures m in rest && m !in taken && forall p :: p in taken ==> p < m
  {
  }

  /** The page so far lists what was taken, in ascending order. */
  ghost predicate Listed(page: seq<nat>, taken: set<nat>) {
    && |page| == |taken| && (forall id :: id in taken <==> id in page)
    && forall i, j :: 0 <= i < j < |page| ==> page[i] < page[j]
  }

  lemma ListNext(page: seq<nat>, taken: set<nat>, m: nat)
    requires Listed(page, taken) && m !in taken && forall p :: p in taken ==> p < m
    ensures Listed(page + [m], taken + {m})
  {
    forall i | 0 <= i < |page| ensures page[i] < m {
      assert page[i] in taken;
    }
  }

  ghost function Shown(page: seq<nat>): set<nat> { set id | id in page }

  lemma ListedIsShown(page: seq<nat>, taken: set<nat>)
    requires Listed(page, taken)
    ensures Shown(page) == taken
  {
  }

  /** `list` with `Pagination::first(1000)`: ascending ids, as many as fit. */
  method ListPage(ids: set<nat>) returns (page: seq<nat>)
    ensures IsPage(ids, Shown(page)) && Listed(page, Shown(page))
  {
    page := [];
    ghost var taken := {};
    var rest := ids;
    NothingTaken(ids);
    assert Listed(page, taken);
    hide Taken, IsLeastId, Listed, IsPage, Shown;
    while rest != {} && |page| < PAGE
      invariant Taken(ids, taken, rest) && Listed(page, taken) && |taken| == |page| <= PAGE
      decreases rest
    {
      LeastId(rest);
      var m :| IsLeastId(m, rest);
      TakeLeast(ids, taken, rest, m);
      ListNext(page, taken, m);
      page, rest, taken := page + [m], rest - {m}, taken + {m};
    }
    TakenIsPage(ids, taken, rest);
    ListedIsShown(page, taken);
  }

  lemma NothingTaken(ids: set<nat>)
    ensures Taken(ids, {}, ids)
  {
  }

  lemma TakenIsPage(ids: set<nat>, taken: set<nat>, rest: set<nat>)
    requires Taken(ids, taken, rest) && |taken| <= PAGE && (rest == {} || |taken| == PAGE)
    ensures IsPage(ids, taken)
  {
  }

  /** Rows past the first page stay past it when rows are added. */
  lemma PageOnlyShrinks(ids: set<nat>, page: set<nat>, more: set<nat>, page': set<nat>, id: nat)
    requires IsPage(ids, page) && IsPage(more, page') && ids <= more && id in page' && id in ids
    ensures id in page
  {
    if id !in page {
      forall p | p in page ensures p in page' {
        assert p < id;
      }
      Larger(page, page', id);
    }
  }

  lemma Larger(a: set<nat>, b: set<nat>, x: nat)
    requires a <= b && x in b && x !in a
    ensures |a| < |b|
  {
    Subset(a, b - {x});
  }

  lemma Subset(a: set<nat>, b: set<nat>)
    requires a <= b
    ensures |a| <= |b|
  {
    if a != {} {
      var x :| x in a;
      Subset(a - {x}, b - {x});
    }
  }

  // ---------------------------------------------------------------- what a row becomes

  predicate HasLoginHint(parameters: seq<(string, string)>) {
    exists i :: 0 <= i < |parameters| && parameters[i].0 == "login_hint"
  }

  /** The deprecated `forward_login_hint` becomes a parameter unless there is one already. */
  function Parameters(p: Provider): seq<(string, string)> {
    if p.forwardLoginHint && !HasLoginHint(p.parameters)
    then p.parameters + [("login_hint", "{{ params.login_hint }}")] else p.parameters
  }

  function UiOrder(index: nat): nat { if index <= I32_MAX then index else I32_MAX }

  predicate ValidProvider(p: Provider) { p.secretReadable && Scope.FromStr(p.scope).Some? }

  function RowOf(p: Provider, index: nat, createdAt: nat): ProviderRow
    requires ValidProvider(p)
  {
    ProviderRow(true, createdAt, Scope.FromStr(p.scope).value, p.forwardLoginHint, Parameters(p), UiOrder(index),
                p.settings)
  }

  /** The ids that the configuration enables. */
  function ConfigIds(config: seq<Provider>): set<nat> {
    set i | 0 <= i < |config| && config[i].enabled :: config[i].id
  }

  /** Where an id is enabled last; the later of two entries with the same id wins. */
  function LastIndex(config: seq<Provider>, id: nat): (k: nat)
    requires id in ConfigIds(config)
    ensures k < |config| && config[k].enabled && config[k].id == id
    ensures forall i :: k < i < |config| ==> !(config[i].enabled && config[i].id == id)
  {
    var n := |config| - 1;
    if config[n].enabled && config[n].id == id then n
    else
      var i :| 0 <= i < |config| && config[i].enabled && config[i].id == id;
      assert config[..n][i].id == id;
      LastIndex(config[..n], id)
  }

  predicate AllValid(config: seq<Provider>) {
    forall i :: 0 <= i < |config| && config[i].enabled ==> ValidProvider(config[i])
  }

  function Created(row: Option<ProviderRow>, now: nat): nat { if row.Some? then row.value.createdAt else now }

  /** What `--prune` deletes: the providers on the page that are disabled, in the database or by the
      configuration. */
  predicate Pruned(row: Option<ProviderRow>, onPage: bool, configured: bool) {
    row.Some? && onPage && !(row.value.enabled && configured)
  }

  /** The row before the configured providers are written. */
  function Cleared(row: Option<ProviderRow>, onPage: bool, configured: bool, prune: bool): Option<ProviderRow> {
    if prune && Pruned(row, onPage, configured) then None
    else if row.Some? && onPage && !configured then Some(row.value.(enabled := false))
    else row
  }

  /** The row in the end. */
  function Final(row: Option<ProviderRow>, id: nat, onPage: bool, config: seq<Provider>, prune: bool, now: nat)
    : Option<ProviderRow>
    requires AllValid(config)
  {
    var cleared := Cleared(row, onPage, id in ConfigIds(config), prune);
    Written(cleared, id, config, now)
  }

  function Written(cleared: Option<ProviderRow>, id: nat, config: seq<Provider>, now: nat): Option<ProviderRow>
    requires AllValid(config)
  {
    if id in ConfigIds(config) then
      var k := LastIndex(config, id);
      Some(RowOf(config[k], k, Created(cleared, now)))
    else cleared
  }

  type Providers = map<nat, ProviderRow>

  ghost predicate Reconciled(before: Providers, page: set<nat>, config: seq<Provider>, prune: bool, now: nat,
                             after: Providers)
    requires AllValid(config)
  {
    && IsPage(before.Keys, page)
    && forall id :: Get(after, id) == Final(Get(before, id), id, id in page, config, prune, now)
  }

  ghost predicate DependentsReconciled(
    rows: Providers, dependents: set<Dependent>, page: set<nat>, config: seq<Provider>, prune: bool,
    after: set<Dependent>)
  {
    forall l :: l in after <==> l in dependents && !(prune && PrunedId(rows, page, config, l.provider))
  }

  ghost predicate PrunedId(rows: Providers, page: set<nat>, config: seq<Provider>, id: nat) {
    Pruned(Get(rows, id), id in page, id in ConfigIds(config))
  }

  // ---------------------------------------------------------------- what it comes to

  ghost function EnabledIds(rows: Providers): set<nat> { set id | id in rows && rows[id].enabled }

  /** Afterwards the enabled providers are those the configuration enables, and those past the first
      page that were enabled and that it does not mention. */
  lemma EnabledAfter(before: Providers, page: set<nat>, config: seq<Provider>, prune: bool, now: nat, after: Providers)
    requires AllValid(config) && Reconciled(before, page, config, prune, now, after)
    ensures EnabledIds(after) == ConfigIds(config) + (EnabledIds(before) - page)
    ensures EnabledIds(after) == ConfigIds(config) <==> EnabledIds(before) - page <= ConfigIds(config)
    ensures |before| <= 1000 ==> EnabledIds(after) == ConfigIds(config)
  {
    hide ConfigIds, LastIndex, RowOf, AllValid;
    forall id
      ensures id in EnabledIds(after) <==> id in ConfigIds(config) || (id in EnabledIds(before) && id !in page)
    {
      EnabledRow(before, page, config, prune, now, after, id);
    }
    if |before| <= PAGE {
      WholePage(before.Keys, page);
    }
  }

  lemma EnabledRow(before: Providers, page: set<nat>, config: seq<Provider>, prune: bool, now: nat,
                   after: Providers, id: nat)
    requires AllValid(config) && Reconciled(before, page, config, prune, now, after)
    ensures id in EnabledIds(after) <==> id in ConfigIds(config) || (id in EnabledIds(before) && id !in page)
  {
    hide ConfigIds, LastIndex, AllValid;
    assert Get(after, id) == Final(Get(before, id), id, id in page, config, prune, now);
  }

  lemma WholePage(ids: set<nat>, page: set<nat>)
    requires IsPage(ids, page) && |ids| <= PAGE
    ensures page == ids
  {
    forall x | x in ids ensures x in page {
      if x !in page { Larger(page, ids, x); }
    }
  }

  /** With pruning, the providers left are those the configuration enables and those past the first
      page; without, no row disappears. */
  lemma RowsAfter(before: Providers, page: set<nat>, config: seq<Provider>, prune: bool, now: nat, after: Providers)
    requires AllValid(config) && Reconciled(before, page, config, prune, now, after)
    ensures prune ==> after.Keys == ConfigIds(config) + (before.Keys - page)
    ensures prune && |before| <= 1000 ==> after.Keys == ConfigIds(config)
    ensures !prune ==> after.Keys == ConfigIds(config) + before.Keys
  {
    hide ConfigIds, LastIndex, AllValid, RowOf;
    forall id ensures id in after <==> id in ConfigIds(config) || (id in before && !(prune && id in page)) {
      assert Get(after, id) == Final(Get(before, id), id, id in page, config, prune, now);
    }
    if |before| <= PAGE {
      WholePage(before.Keys, page);
    }
  }

  /** The rows the second time: a configured one is found as it was left. */
  lemma SecondRow(before: Providers, page: set<nat>, config: seq<Provider>, prune: bool, now: nat, after: Providers,
                  page': set<nat>, now': nat, id: nat)
    requires AllValid(config) && Reconciled(before, page, config, prune, now, after) && IsPage(after.Keys, page')
    ensures Final(Get(after, id), id, id in page', config, prune, now') == Get(after, id)
       <==> !(prune && id in page' && id !in ConfigIds(config))
  {
    hide ConfigIds, LastIndex, AllValid, IsPage;
    assert Get(after, id) == Final(Get(before, id), id, id in page, config, prune, now);
    if id in page' && id !in ConfigIds(config) && !prune {
      StillOnPage(before, page, config, now, after, page', id);
    }
    assert id in page' ==> id in after by { PageIsPart(after.Keys, page'); }
  }

  lemma PageIsPart(ids: set<nat>, page: set<nat>)
    requires IsPage(ids, page)
    ensures page <= ids
  {
  }

  lemma StillOnPage(before: Providers, page: set<nat>, config: seq<Provider>, now: nat, after: Providers,
                    page': set<nat>, id: nat)
    requires AllValid(config) && Reconciled(before, page, config, false, now, after) && IsPage(after.Keys, page')
    requires id in page' && id !in ConfigIds(config)
    ensures id in page && id in before
  {
    hide ConfigIds, LastIndex, AllValid, Final;
    RowsAfter(before, page, config, false, now, after);
    PageOnlyShrinks(before.Keys, page, after.Keys, page', id);
  }

  /** A second synchronisation changes nothing, unless it prunes and the first one has let rows past
      the first page move up: exactly then it changes something. */
  lemma SecondSyncIsNoOpIff(before: Providers, page: set<nat>, config: seq<Provider>, prune: bool, now: nat,
                            after: Providers, page': set<nat>, now': nat, again: Providers)
    requires AllValid(config) && Reconciled(before, page, config, prune, now, after)
    requires Reconciled(after, page', config, prune, now', again)
    ensures again == after <==> !prune || page' <= ConfigIds(config)
    ensures |before| <= 1000 ==> again == after
  {
    hide ConfigIds, LastIndex, AllValid, Final;
    forall id ensures Get(again, id) == Get(after, id) <==> !(prune && id in page' && id !in ConfigIds(config)) {
      assert Get(again, id) == Final(Get(after, id), id, id in page', config, prune, now');
      SecondRow(before, page, config, prune, now, after, page', now', id);
    }
    if !prune || page' <= ConfigIds(config) {
      SameGets(again, after);
    }
    if |before| <= PAGE && prune {
      RowsAfter(before, page, config, prune, now, after);
      PageIsPart(after.Keys, page');
    }
  }

  /** The same for the links and sessions: the second synchronisation takes away those of the providers
      that have moved onto the page and are not configured. */
  lemma SecondSyncKeepsDependentsIff(before: Providers, dependents: set<Dependent>, page: set<nat>,
                                     config: seq<Provider>, prune: bool, now: nat, after: Providers,
                                     left: set<Dependent>, page': set<nat>, again: set<Dependent>)
    requires AllValid(config) && Reconciled(before, page, config, prune, now, after) && IsPage(after.Keys, page')
    requires DependentsReconciled(before, dependents, page, config, prune, left)
    requires DependentsReconciled(after, left, page', config, prune, again)
    ensures again == left <==>
      !prune || forall d :: d in left && d.provider in page' ==> d.provider in ConfigIds(config)
    ensures |before| <= 1000 ==> again == left
  {
    hide ConfigIds, LastIndex, AllValid, Final;
    forall d | d in left ensures d in again <==> !prune || d.provider !in page' || d.provider in ConfigIds(config) {
      SecondPruned(before, page, config, prune, now, after, page', d.provider);
    }
    if |before| <= PAGE && prune {
      RowsAfter(before, page, config, prune, now, after);
      PageIsPart(after.Keys, page');
    }
  }

  /** After a synchronisation a provider is up for pruning exactly if it is on the page and not configured. */
  lemma SecondPruned(before: Providers, page: set<nat>, config: seq<Provider>, prune: bool, now: nat,
                     after: Providers, page': set<nat>, id: nat)
    requires AllValid(config) && Reconciled(before, page, config, prune, now, after) && IsPage(after.Keys, page')
    ensures PrunedId(after, page', config, id) <==> id in page' && id !in ConfigIds(config)
  {
    if id in ConfigIds(config) { assert ValidProvider(config[LastIndex(config, id)]); }
    hide ConfigIds, LastIndex, AllValid;
    assert Get(after, id) == Final(Get(before, id), id, id in page, config, prune, now);
  }

  /** As many equal rows, with the first ids. */
  function Rows(n: nat, row: ProviderRow): (rows: Providers)
    ensures |rows| == n && forall id :: id in rows <==> 0 <= id < n
  {
    if n == 0 then map[] else Rows(n - 1, row)[n - 1 := row]
  }

  /** So it is with one row more than a page holds, nothing configured and pruning: the first
      synchronisation leaves one row, the second one deletes it. */
  lemma SecondSyncExample(row: ProviderRow, page: set<nat>, now: nat, after: Providers,
                          page': set<nat>, now': nat, again: Providers)
    requires Reconciled(Rows(1001, row), page, [], true, now, after)
    requires Reconciled(after, page', [], true, now', again)
    ensures |after| == 1 && |again| == 0
  {
    var before := Rows(1001, row);
    assert ConfigIds([]) == {};
    RowsAfter(before, page, [], true, now, after);
    RowsAfter(after, page', [], true, now', again);
    hide Rows, Final;
    PageIsFull(before.Keys, page);
    assert |before.Keys - page| == 1;
    WholePage(after.Keys, page');
  }

  lemma PageIsFull(ids: set<nat>, page: set<nat>)
    requires IsPage(ids, page) && |ids| > PAGE
    ensures |page| == PAGE && |ids - page| == |ids| - PAGE
  {
    assert ids == page + (ids - page);
  }

  /** Of two configured providers, the one whose last entry comes first in the configuration is shown
      first, as long as its position fits the column. */
  lemma UiOrderFollowsConfig(before: Providers, page: set<nat>, config: seq<Provider>, prune: bool, now: nat,
                             after: Providers, a: nat, b: nat)
    requires AllValid(config) && Reconciled(before, page, config, prune, now, after)
    requires a in ConfigIds(config) && b in ConfigIds(config)
    ensures a in after && b in after
    ensures after[a].uiOrder < after[b].uiOrder <==>
      LastIndex(config, a) < LastIndex(config, b) && LastIndex(config, a) < 0x7FFF_FFFF
  {
    assert ValidProvider(config[LastIndex(config, a)]) && ValidProvider(config[LastIndex(config, b)]);
    hide ConfigIds, LastIndex, AllValid, IsPage;
    assert Get(after, a) == Final(Get(before, a), a, a in page, config, prune, now);
    assert Get(after, b) == Final(Get(before, b), b, b in page, config, prune, now);
  }

  /** A provider is stored with a login hint exactly when the configuration gives one or forwards it;
      what the configuration gives is kept as it is and nothing else is added. */
  lemma LoginHintAfter(before: Providers, page: set<nat>, config: seq<Provider>, prune: bool, now: nat,
                       after: Providers, id: nat)
    requires AllValid(config) && Reconciled(before, page, config, prune, now, after) && id in ConfigIds(config)
    ensures id in after
    ensures var given, stored := config[LastIndex(config, id)], after[id].parameters;
      && (HasLoginHint(stored) <==> HasLoginHint(given.parameters) || given.forwardLoginHint)
      && given.parameters <= stored
      && |stored| == |given.parameters| + if given.forwardLoginHint && !HasLoginHint(given.parameters) then 1 else 0
  {
    var p := config[LastIndex(config, id)];
    assert ValidProvider(p);
    hide ConfigIds, LastIndex, AllValid, IsPage;
    assert Get(after, id) == Final(Get(before, id), id, id in page, config, prune, now);
    if p.forwardLoginHint && !HasLoginHint(p.parameters) {
      assert Parameters(p)[|p.parameters|].0 == "login_hint";
    }
  }

  /** Entry `k` is the last one that enables the id. */
  predicate LastEntry(config: seq<Provider>, id: nat, k: nat) {
    && k < |config| && config[k].enabled && config[k].id == id
    && forall i :: k < i < |config| ==> !(config[i].enabled && config[i].id == id)
  }

  /** What is stored for a configured provider, field by field: what its last entry says, under its
      position, and created when the row was unless it was pruned first. */
  lemma ConfiguredRow(before: Providers, page: set<nat>, config: seq<Provider>, prune: bool, now: nat,
                      after: Providers, id: nat, k: nat)
    requires AllValid(config) && Reconciled(before, page, config, prune, now, after) && LastEntry(config, id, k)
    ensures id in after && after[id].enabled
    ensures after[id].settings == config[k].settings && after[id].forwardLoginHint == config[k].forwardLoginHint
    ensures forall t :: t in after[id].scope <==> t in Split(config[k].scope, ' ')
    ensures after[id].uiOrder == if k <= 0x7FFF_FFFF then k else 0x7FFF_FFFF
    ensures var given := config[k].parameters;
      after[id].parameters
        == given + if config[k].forwardLoginHint && forall i :: 0 <= i < |given| ==> given[i].0 != "login_hint"
                   then [("login_hint", "{{ params.login_hint }}")] else []
    ensures after[id].createdAt
         == if id in before && !(prune && id in page && !before[id].enabled) then before[id].createdAt else now
  {
    assert id in ConfigIds(config);
    var last := LastIndex(config, id);
    assert last == k;
    assert ValidProvider(config[k]);
    Scope.ParsedWords(config[k].scope);
    assert config[k].parameters + [] == config[k].parameters;
    hide ConfigIds, LastIndex, AllValid, IsPage, Scope.FromStr, Split;
    assert Get(after, id) == Final(Get(before, id), id, id in page, config, prune, now);
  }

  /** A provider that is not configured is deleted if it is on the page and pruning is on; otherwise only
      its being enabled changes, and only on the page. */
  lemma UnconfiguredRow(before: Providers, page: set<nat>, config: seq<Provider>, prune: bool, now: nat,
                        after: Providers, id: nat)
    requires AllValid(config) && Reconciled(before, page, config, prune, now, after)
    requires forall i :: 0 <= i < |config| ==> !(config[i].enabled && config[i].id == id)
    ensures id in after <==> id in before && !(prune && id in page)
    ensures id in after ==> after[id] == before[id].(enabled := before[id].enabled && id !in page)
  {
    assert id !in ConfigIds(config);
    hide ConfigIds, LastIndex, AllValid, IsPage, RowOf;
    assert Get(after, id) == Final(Get(before, id), id, id in page, config, prune, now);
  }

  /** The configurations that can be written: of each enabled provider the secret can be read and the
      scope is one. */
  lemma ValidIff(config: seq<Provider>)
    ensures AllValid(config) <==> forall i :: 0 <= i < |config| && config[i].enabled ==>
      config[i].secretReadable && exists tokens :: Scope.IsScope(config[i].scope, tokens)
  {
    hide Scope.FromStr, Scope.IsScope;
    forall i | 0 <= i < |config|
      ensures ValidProvider(config[i]) <==>
        config[i].secretReadable && exists tokens :: Scope.IsScope(config[i].scope, tokens)
    {
      Scope.AcceptsGrammar(config[i].scope);
    }
  }

  // ---------------------------------------------------------------- clients

  type Clients = map<nat, ClientRow>

  predicate ValidClient(c: Client) { c.secretReadable && !(c.jwks.Some? && c.jwksUri.Some?) }

  predicate AllValidClients(config: seq<Client>) { forall i :: 0 <= i < |config| ==> ValidClient(config[i]) }

  function ClientIds(config: seq<Client>): set<nat> { set i | 0 <= i < |config| :: config[i].id }

  function LastClient(config: seq<Client>, id: nat): (k: nat)
    requires id in ClientIds(config)
    ensures k < |config| && config[k].id == id
  {
    var n := |config| - 1;
    if config[n].id == id then n
    else
      var i :| 0 <= i < |config| && config[i].id == id;
      assert config[..n][i].id == id;
      LastClient(config[..n], id)
  }

  function ClientRowOf(c: Client): ClientRow { ClientRow(true, c.jwks, c.jwksUri, c.settings) }

  function ClearedClient(row: Option<ClientRow>, configured: bool, prune: bool): Option<ClientRow> {
    if prune && row.Some? && row.value.isStatic && !configured then None else row
  }

  function WrittenClient(row: Option<ClientRow>, id: nat, config: seq<Client>): Option<ClientRow> {
    if id in ClientIds(config) then Some(ClientRowOf(config[LastClient(config, id)])) else row
  }

  function FinalClient(row: Option<ClientRow>, id: nat, config: seq<Client>, prune: bool): Option<ClientRow> {
    WrittenClient(ClearedClient(row, id in ClientIds(config), prune), id, config)
  }

  ghost predicate ClientsReconciled(before: Clients, config: seq<Client>, prune: bool, after: Clients) {
    forall id :: Get(after, id) == FinalClient(Get(before, id), id, config, prune)
  }

  ghost function StaticIds(rows: Clients): set<nat> { set id | id in rows && rows[id].isStatic }

  /** With pruning the static clients are those of the configuration; without, none disappears.
      Dynamically registered clients are left alone unless the configuration has their id. */
  lemma ClientsAfter(before: Clients, config: seq<Client>, prune: bool, after: Clients)
    requires ClientsReconciled(before, config, prune, after)
    ensures StaticIds(after) == ClientIds(config) + if prune then {} else StaticIds(before)
    ensures forall id :: id in before && !before[id].isStatic && id !in ClientIds(config) ==>
      Get(after, id) == Get(before, id)
    ensures !prune ==> before.Keys <= after.Keys
  {
    hide ClientIds, LastClient;
    forall id ensures id in StaticIds(after) <==> id in ClientIds(config) || (!prune && id in StaticIds(before)) {
      assert Get(after, id) == FinalClient(Get(before, id), id, config, prune);
    }
    forall id | id in before && !prune ensures id in after {
      assert Get(after, id) == FinalClient(Get(before, id), id, config, prune);
    }
  }

  lemma ClientSyncIsIdempotent(before: Clients, config: seq<Client>, prune: bool, after: Clients, again: Clients)
    requires ClientsReconciled(before, config, prune, after) && ClientsReconciled(after, config, prune, again)
    ensures again == after
  {
    hide ClientIds, LastClient;
    forall id ensures Get(again, id) == Get(after, id) {
      assert Get(after, id) == FinalClient(Get(before, id), id, config, prune);
      assert Get(again, id) == FinalClient(Get(after, id), id, config, prune);
    }
    SameGets(again, after);
  }

  /** What is stored for a configured client is what its last entry says, as a static client; a client
      that is not configured is deleted if it is static and pruning is on, and otherwise stays as it is. */
  lemma ClientRows(before: Clients, config: seq<Client>, prune: bool, after: Clients, id: nat)
    requires ClientsReconciled(before, config, prune, after)
    ensures forall k ::
      0 <= k < |config| && config[k].id == id && (forall i :: k < i < |config| ==> config[i].id != id) ==>
      && id in after && after[id].isStatic && after[id].jwks == config[k].jwks
      && after[id].jwksUri == config[k].jwksUri && after[id].settings == config[k].settings
    ensures (forall i :: 0 <= i < |config| ==> config[i].id != id) ==>
      && (id in after <==> id in before && !(prune && before[id].isStatic))
      && (id in after ==> after[id] == before[id])
  {
    assert Get(after, id) == FinalClient(Get(before, id), id, config, prune);
    if id in ClientIds(config) {
      LastClientIsLast(config, id);
    }
    hide LastClient;
  }

  lemma {:induction false} LastClientIsLast(config: seq<Client>, id: nat)
    requires id in ClientIds(config)
    ensures forall i :: LastClient(config, id) < i < |config| ==> config[i].id != id
  {
    var n := |config| - 1;
    if config[n].id != id {
      var i :| 0 <= i < |config| && config[i].id == id;
      assert config[..n][i].id == id;
      LastClientIsLast(config[..n], id);
      forall j | LastClient(config, id) < j < |config| ensures config[j].id != id {
        assert j < n ==> config[..n][j] == config[j];
      }
    }
  }

  // ---------------------------------------------------------------- the loops

  /** The pass over the page: what is enabled there and not in the configuration is disabled. */
  method DisableExisting(before: Providers, page: seq<nat>, configIds: set<nat>, dryRun: bool)
    returns (rows: Providers, existingEnabled: set<nat>, existingDisabled: set<nat>)
    requires forall id :: id in page ==> id in before
    requires forall i, j :: 0 <= i < j < |page| ==> page[i] < page[j]
    ensures dryRun ==> rows == before
    ensures !dryRun ==> forall id :: Get(rows, id) == Cleared(Get(before, id), id in page, id in configIds, false)
    ensures forall id :: id in existingDisabled <==> Pruned(Get(before, id), id in page, id in configIds)
    ensures forall id :: id in existingEnabled <==> id in page && before[id].enabled && id in configIds
  {
    rows, existingEnabled, existingDisabled := before, {}, {};
    for i := 0 to |page|
      invariant dryRun ==> rows == before
      invariant !dryRun ==> forall id ::
        Get(rows, id) == Cleared(Get(before, id), id in page[..i], id in configIds, false)
      invariant forall id :: id in existingDisabled <==> Pruned(Get(before, id), id in page[..i], id in configIds)
      invariant forall id :: id in existingEnabled <==> id in page[..i] && before[id].enabled && id in configIds
    {
      var id := page[i];
      assert page[..i + 1] == page[..i] + [id];
      assert Get(rows, id) == Get(before, id);
      if before[id].enabled {
        if id in configIds {
          existingEnabled := existingEnabled + {id};
        } else {
          if !dryRun {
            rows := rows[id := rows[id].(enabled := false)];
          }
          existingDisabled := existingDisabled + {id};
        }
      } else {
        existingDisabled := existingDisabled + {id};
      }
    }
    assert page[..|page|] == page;
  }

  /** The loop of `--prune`: deleting a provider takes its sessions and links along. */
  method DeleteProviders(before: Providers, attached: set<Dependent>, ids: set<nat>, dryRun: bool)
    returns (rows: Providers, dependents: set<Dependent>)
    ensures dryRun ==> rows == before && dependents == attached
    ensures !dryRun ==> forall id :: Get(rows, id) == if id in ids then None else Get(before, id)
    ensures !dryRun ==> forall l :: l in dependents <==> l in attached && l.provider !in ids
  {
    rows, dependents := before, attached;
    var rest := ids;
    while rest != {}
      invariant rest <= ids
      invariant dryRun ==> rows == before && dependents == attached
      invariant !dryRun ==> forall id :: Get(rows, id) == if id in ids && id !in rest then None else Get(before, id)
      invariant !dryRun ==> forall l ::
        l in dependents <==> l in attached && !(l.provider in ids && l.provider !in rest)
      decreases rest
    {
      var id :| id in rest;
      rest := rest - {id};
      if dryRun { continue; }
      dependents := set l | l in dependents && l.provider != id;
      rows := rows - {id};
    }
  }

  lemma WrittenNone(cleared: Option<ProviderRow>, id: nat, now: nat)
    ensures Written(cleared, id, [], now) == cleared
  {
  }

  /** Writing one more entry of the configuration. */
  lemma WrittenStep(cleared: Option<ProviderRow>, id: nat, config: seq<Provider>, i: nat, now: nat)
    requires i < |config| && AllValid(config[..i]) && (config[i].enabled ==> ValidProvider(config[i]))
    ensures AllValid(config[..i + 1])
    ensures Written(cleared, id, config[..i + 1], now)
         == if config[i].enabled && config[i].id == id
            then Some(RowOf(config[i], i, Created(Written(cleared, id, config[..i], now), now)))
            else Written(cleared, id, config[..i], now)
  {
    var front, more := config[..i], config[..i + 1];
    assert more[..i] == front && more[i] == config[i];
    hide RowOf, ValidProvider;
    if id in ConfigIds(front) {
      RowKeepsCreation(config[LastIndex(front, id)], LastIndex(front, id), Created(cleared, now), now);
      assert more[LastIndex(front, id)].id == id && id in ConfigIds(more);
    }
    if id in ConfigIds(more) {
      SameLast(config, i, id);
    }
    if config[i].enabled && config[i].id == id {
      assert more[i].id == id;
      assert id in ConfigIds(more);
    }
  }

  lemma RowKeepsCreation(p: Provider, index: nat, createdAt: nat, now: nat)
    requires ValidProvider(p)
    ensures Created(Some(RowOf(p, index, createdAt)), now) == createdAt
  {
  }

  lemma SameLast(config: seq<Provider>, i: nat, id: nat)
    requires i < |config| && id in ConfigIds(config[..i + 1])
    ensures config[i].enabled && config[i].id == id ==> LastIndex(config[..i + 1], id) == i
    ensures !(config[i].enabled && config[i].id == id) ==>
      id in ConfigIds(config[..i]) && LastIndex(config[..i + 1], id) == LastIndex(config[..i], id)
  {
    var front, more := config[..i], config[..i + 1];
    var k := LastIndex(more, id);
    if !(config[i].enabled && config[i].id == id) {
      assert front[k] == more[k];
      assert id in ConfigIds(front);
      var j := LastIndex(front, id);
      assert more[j] == front[j];
    }
  }

  lemma InvalidLater(config: seq<Provider>, i: nat)
    requires i < |config| && config[i].enabled && !ValidProvider(config[i])
    ensures !AllValid(config)
  {
  }

  /** The loop that writes the configured providers; an unreadable secret or a scope that does not
      parse ends it. */
  method WriteProviders(cleared: Providers, config: seq<Provider>, dryRun: bool, now: nat) returns (ok: bool,
                        rows: Providers)
    ensures ok <==> dryRun || AllValid(config)
    ensures dryRun ==> rows == cleared
    ensures ok && !dryRun ==> forall id :: Get(rows, id) == Written(Get(cleared, id), id, config, now)
  {
    hide Written, RowOf, ConfigIds, LastIndex;
    rows := cleared;
    forall id ensures Get(rows, id) == Written(Get(cleared, id), id, config[..0], now) {
      WrittenNone(Get(cleared, id), id, now);
    }
    for index := 0 to |config|
      invariant dryRun ==> rows == cleared
      invariant !dryRun ==> AllValid(config[..index])
      invariant !dryRun ==> forall id :: Get(rows, id) == Written(Get(cleared, id), id, config[..index], now)
    {
      var provider := config[index];
      if dryRun { continue; }
      if provider.enabled && !ValidProvider(provider) {
        InvalidLater(config, index);
        return false, rows;
      }
      forall id {
        WrittenStep(Get(cleared, id), id, config, index, now);
      }
      if !provider.enabled { continue; }
      var createdAt := Created(Get(rows, provider.id), now);
      rows := rows[provider.id := RowOf(provider, index, createdAt)];
    }
    assert config[..|config|] == config;
    ok := true;
  }

  // ---------------------------------------------------------------- clients, the loops

  method DeleteClients(before: Clients, ids: set<nat>, dryRun: bool) returns (rows: Clients)
    ensures dryRun ==> rows == before
    ensures !dryRun ==> forall id :: Get(rows, id) == if id in ids then None else Get(before, id)
  {
    rows := before;
    var rest := ids;
    while rest != {}
      invariant rest <= ids
      invariant dryRun ==> rows == before
      invariant !dryRun ==> forall id :: Get(rows, id) == if id in ids && id !in rest then None else Get(before, id)
      decreases rest
    {
      var id :| id in rest;
      rest := rest - {id};
      if dryRun { continue; }
      rows := rows - {id};
    }
  }

  lemma WrittenClientStep(row: Option<ClientRow>, id: nat, config: seq<Client>, i: nat)
    requires i < |config|
    ensures WrittenClient(row, id, config[..i + 1])
         == if config[i].id == id then Some(ClientRowOf(config[i])) else WrittenClient(row, id, config[..i])
  {
    var front, more := config[..i], config[..i + 1];
    assert more[..i] == front && more[i] == config[i];
    if config[i].id == id {
      assert more[i].id == id;
      assert id in ClientIds(more);
    } else {
      if id in ClientIds(more) {
        var k :| 0 <= k < |more| && more[k].id == id;
        assert front[k].id == id;
      }
      if id in ClientIds(front) {
        var k :| 0 <= k < |front| && front[k].id == id;
        assert more[k].id == id;
      }
    }
  }

  lemma InvalidClientLater(config: seq<Client>, i: nat)
    requires i < |config| && !ValidClient(config[i])
    ensures !AllValidClients(config)
  {
  }

  method WriteClients(cleared: Clients, config: seq<Client>, dryRun: bool) returns (ok: bool, rows: Clients)
    ensures ok <==> dryRun || AllValidClients(config)
    ensures dryRun ==> rows == cleared
    ensures ok && !dryRun ==> forall id :: Get(rows, id) == WrittenClient(Get(cleared, id), id, config)
  {
    hide ClientIds, LastClient;
    rows := cleared;
    forall id ensures Get(rows, id) == WrittenClient(Get(cleared, id), id, config[..0]) {
      NoClient(Get(cleared, id), id);
    }
    hide WrittenClient;
    for i := 0 to |config|
      invariant dryRun ==> rows == cleared
      invariant !dryRun ==> AllValidClients(config[..i])
      invariant !dryRun ==> forall id :: Get(rows, id) == WrittenClient(Get(cleared, id), id, config[..i])
    {
      var client := config[i];
      if dryRun { continue; }
      if !ValidClient(client) {
        InvalidClientLater(config, i);
        return false, rows;
      }
      forall id {
        WrittenClientStep(Get(cleared, id), id, config, i);
      }
      rows := rows[client.id := ClientRowOf(client)];
    }
    assert config[..|config|] == config;
    ok := true;
  }

  lemma NoClient(row: Option<ClientRow>, id: nat)
    ensures WrittenClient(row, id, []) == row
  {
  }

  method SyncClients(before: Clients, config: seq<Client>, prune: bool, dryRun: bool) returns (ok: bool, rows: Clients)
    ensures ok <==> dryRun || AllValidClients(config)
    ensures ok <==> dryRun || forall i :: 0 <= i < |config| ==>
      config[i].secretReadable && (config[i].jwks.None? || config[i].jwksUri.None?)
    ensures dryRun ==> rows == before
    ensures ok && !dryRun ==> ClientsReconciled(before, config, prune, rows)
  {
    hide WrittenClient, ClientIds;
    var configIds := ClientIds(config);
    rows := before;
    if prune {
      var toDelete := set id | id in before && before[id].isStatic && id !in configIds;
      rows := DeleteClients(before, toDelete, dryRun);
    }
    assert !dryRun ==> forall id :: Get(rows, id) == ClearedClient(Get(before, id), id in configIds, prune);
    ok, rows := WriteClients(rows, config, dryRun);
  }

  method SyncProviders(before: Providers, attached: set<Dependent>, config: seq<Provider>, prune: bool,
                       dryRun: bool, now: nat)
    returns (ok: bool, rows: Providers, dependents: set<Dependent>, ghost page: set<nat>)
    ensures ok <==> dryRun || AllValid(config)
    ensures dryRun ==> rows == before && dependents == attached
    ensures ok && !dryRun ==> Reconciled(before, page, config, prune, now, rows)
    ensures ok && !dryRun ==> DependentsReconciled(before, attached, page, config, prune, dependents)
  {
    hide Written, ConfigIds, IsPage;
    var configIds := ConfigIds(config);
    var listed: seq<nat>;
    listed := ListPage(before.Keys);
    page := Shown(listed);
    PageIsPart(before.Keys, page);
    var existingEnabled, existingDisabled;
    rows, existingEnabled, existingDisabled := DisableExisting(before, listed, configIds, dryRun);
    dependents := attached;
    if prune {
      rows, dependents := DeleteProviders(rows, attached, existingDisabled, dryRun);
    }
    assert !dryRun ==> forall id :: Get(rows, id) == Cleared(Get(before, id), id in page, id in configIds, prune);
    ok, rows := WriteProviders(rows, config, dryRun, now);
  }

  class Database {
    var providers: Providers
    var dependents: set<Dependent>
    var clients: Clients

    /** `config_sync`: one transaction, which a dry run rolls back and an error drops. */
    method ConfigSync(config: seq<Provider>, clientConfig: seq<Client>, prune: bool, dryRun: bool, now: nat)
      returns (ok: bool, ghost page: set<nat>)
      modifies this
      ensures !ok <==> !dryRun && !(AllValid(config) && AllValidClients(clientConfig))
      ensures !ok || dryRun ==> providers == old(providers) && dependents == old(dependents) && clients == old(clients)
      ensures ok && !dryRun ==>
        && Reconciled(old(providers), page, config, prune, now, providers)
        && DependentsReconciled(old(providers), old(dependents), page, config, prune, dependents)
        && ClientsReconciled(old(clients), clientConfig, prune, clients)
    {
      hide Reconciled, DependentsReconciled, ClientsReconciled, AllValid, AllValidClients;
      var newProviders, newDependents, newClients;
      ok, newProviders, newDependents, page := SyncProviders(providers, dependents, config, prune, dryRun, now);
      if !ok { return; }
      ok, newClients := SyncClients(clients, clientConfig, prune, dryRun);
      if !ok { return; }
      if !dryRun {
        providers, dependents, clients := newProviders, newDependents, newClients;
      }
    }
  }

  /** Pruning takes a provider's links and sessions away exactly if the provider is on the page and
      disabled in the database or by the configuration; the provider itself is there afterwards exactly
      if the configuration enables it. */
  lemma DependentLostIff(before: Providers, dependents: set<Dependent>, page: set<nat>, config: seq<Provider>,
                         prune: bool, now: nat, after: Providers, left: set<Dependent>, d: Dependent)
    requires AllValid(config) && Reconciled(before, page, config, prune, now, after)
    requires DependentsReconciled(before, dependents, page, config, prune, left)
    requires d in dependents && d.provider in before
    ensures d !in left <==>
      prune && d.provider in page && (!before[d.provider].enabled || d.provider !in ConfigIds(config))
    ensures d !in left && d.provider in after <==>
      prune && d.provider in page && !before[d.provider].enabled && d.provider in ConfigIds(config)
  {
    RowsAfter(before, page, config, prune, now, after);
    hide ConfigIds, LastIndex, AllValid, Final;
  }

  /** A provider disabled in the database that the configuration enables again: pruning keeps the
      provider and enables it, yet its links are gone, and it counts as created now. */
  lemma ReenabledLosesLinks(row: ProviderRow, p: Provider, page: set<nat>, now: nat, after: Providers,
                            subject: string, dependents: set<Dependent>)
    requires !row.enabled && p.enabled && ValidProvider(p)
    requires Reconciled(map[p.id := row], page, [p], true, now, after)
    requires DependentsReconciled(map[p.id := row], {Link(p.id, subject)}, page, [p], true, dependents)
    ensures p.id in after && after[p.id].enabled && after[p.id].createdAt == now
    ensures Link(p.id, subject) !in dependents
  {
    var before := map[p.id := row];
    assert [p][0] == p && p.id in ConfigIds([p]);
    WholePage(before.Keys, page);
    assert Get(after, p.id) == Final(Get(before, p.id), p.id, p.id in page, [p], true, now);
    var link := Link(p.id, subject);
    DependentLostIff(before, {link}, page, [p], true, now, after, dependents, link);
  }
}
