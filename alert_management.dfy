/** The compact management list of a user's announcements
    (src/components/AlertManagement/index.tsx): normalisation of fetched
    records, the newest-first sort, the title search, the three-item
    preview with its "show more" control, the urgency badge and the local
    delete. */
module AlertManagement {
  import opened Common
  import opened Text

  /** A record as the list fetches it: any field may be missing. */
  datatype Fetched = Fetched(
    id: string,
    mainTitle: Option<string>,
    urgency: Option<string>,
    createdAt: Option<int>,
    isActive: Option<bool>)

  /** One row of the list; `createdAt` in milliseconds since the epoch. */
  datatype Alert = Alert(id: string, mainTitle: string, urgency: string, createdAt: int, isActive: bool)

  /** The `map` of `loadAlerts`; `nowMs` stands for `new Date()`. */
  function Normalise(f: Fetched, nowMs: int): (r: Alert)
    ensures r.id == f.id
    ensures r.mainTitle == (if f.mainTitle.Some? && f.mainTitle.value != [] then f.mainTitle.value else "Sem título")
    ensures r.urgency == (if f.urgency.Some? && f.urgency.value != [] then f.urgency.value else "medium")
    ensures r.createdAt == (if f.createdAt.Some? then f.createdAt.value else nowMs)
    ensures r.isActive <==> f.isActive != Some(false)
  {
    Alert(
      f.id,
      if f.mainTitle.Some? && f.mainTitle.value != [] then f.mainTitle.value else "Sem título",
      if f.urgency.Some? && f.urgency.value != [] then f.urgency.value else "medium",
      if f.createdAt.Some? then f.createdAt.value else nowMs,
      f.isActive != Some(false))
  }

  /** A normalised row always has a title and an urgency, and is active
      unless it was stored as inactive. */
  lemma NormalisedRow(f: Fetched, nowMs: int)
    ensures Normalise(f, nowMs).mainTitle != [] && Normalise(f, nowMs).urgency != []
    ensures f.isActive.None? ==> Normalise(f, nowMs).isActive
  {
  }

  /** Non-increasing creation time: newest first. */
  predicate NewestFirst(s: seq<Alert>)
  {
    forall p, q :: 0 <= p < q < |s| ==> s[p].createdAt >= s[q].createdAt
  }

  /** `formattedAlerts.sort((a, b) => b.createdAt - a.createdAt)`, as an
      insertion sort by adjacent swaps. */
  method SortNewestFirst(a: array<Alert>)
    modifies a
    ensures NewestFirst(a[..])
    ensures multiset(a[..]) == multiset(old(a[..]))
  {
    var i := 0;
    while i < a.Length
      invariant 0 <= i <= a.Length
      invariant forall p, q :: 0 <= p < q < i ==> a[p].createdAt >= a[q].createdAt
      invariant multiset(a[..]) == multiset(old(a[..]))
    {
      Insert(a, i);
      i := i + 1;
    }
    assert a[..] == a[..a.Length];
  }

  /** One insertion step: `a[i]` moves left past every older row, so the
      first `i + 1` rows are newest first. */
  method Insert(a: array<Alert>, i: nat)
    requires i < a.Length
    requires forall p, q :: 0 <= p < q < i ==> a[p].createdAt >= a[q].createdAt
    modifies a
    ensures forall p, q :: 0 <= p < q <= i ==> a[p].createdAt >= a[q].createdAt
    ensures multiset(a[..]) == multiset(old(a[..]))
  {
    var j := i;
    while j > 0 && a[j - 1].createdAt < a[j].createdAt
      invariant 0 <= j <= i
      invariant forall p, q :: 0 <= p < q <= i && p != j && q != j ==> a[p].createdAt >= a[q].createdAt
      invariant forall q :: j < q <= i ==> a[j].createdAt > a[q].createdAt
      invariant multiset(a[..]) == multiset(old(a[..]))
    {
      Swap(a, j - 1, j);
      j := j - 1;
    }
  }

  /** Exchanges two rows. */
  method Swap(a: array<Alert>, i: nat, j: nat)
    requires i < a.Length && j < a.Length
    modifies a
    ensures a[..] == old(a[..])[i := old(a[j])][j := old(a[i])]
    ensures multiset(a[..]) == multiset(old(a[..]))
  {
    a[i], a[j] := a[j], a[i];
  }

  /** The title search: case-insensitive substring match. */
  function MatchesTerm(term: string): Alert -> bool
  {
    (alert: Alert) => Includes(Lower(alert.mainTitle), Lower(term))
  }

  /** `filteredAlerts`: everything for an empty search term, otherwise the
      rows whose title contains the term, ignoring case. */
  function FilteredAlerts(alerts: seq<Alert>, term: string): (r: seq<Alert>)
    ensures |r| <= |alerts|
    ensures term == [] ==> r == alerts
  {
    if term == [] then alerts else Filter(alerts, MatchesTerm(term))
  }

  /** The search keeps exactly the matching rows, in their order. */
  lemma FilteredExactly(alerts: seq<Alert>, term: string, x: Alert)
    requires term != []
    ensures x in FilteredAlerts(alerts, term) <==> x in alerts && Includes(Lower(x.mainTitle), Lower(term))
    ensures IsSubsequence(FilteredAlerts(alerts, term), alerts)
  {
    FilterMembership(alerts, MatchesTerm(term), x);
    FilterIsSubsequence(alerts, MatchesTerm(term));
  }

  /** The search ignores the case of the term. */
  lemma FilterIgnoresTermCase(alerts: seq<Alert>, term: string)
    ensures FilteredAlerts(alerts, Lower(term)) == FilteredAlerts(alerts, term)
  {
    LowerIdempotent(term);
    FilterSame(alerts, MatchesTerm(Lower(term)), MatchesTerm(term));
  }

  /** The search matches a title that literally contains the term. */
  lemma FilterKeepsLiteralMatch(alerts: seq<Alert>, term: string, k: nat)
    requires k < |alerts| && Includes(alerts[k].mainTitle, term)
    ensures alerts[k] in FilteredAlerts(alerts, term)
  {
    if term != [] {
      var t := alerts[k].mainTitle;
      IncludesAt(t, term);
      var i :| 0 <= i <= |t| && term <= t[i..];
      LowerSlice(t, term, i);
      IncludesAt(Lower(t), Lower(term));
      FilterMembership(alerts, MatchesTerm(term), alerts[k]);
    }
  }

  /** Lower-casing preserves an occurrence. */
  lemma LowerSlice(t: string, term: string, i: nat)
    requires i <= |t| && term <= t[i..]
    ensures Lower(term) <= Lower(t)[i..]
  {
    forall m | 0 <= m < |term| ensures Lower(term)[m] == Lower(t)[i..][m] {
      assert term[m] == t[i..][m];
    }
  }

  /** How many rows the collapsed list shows. */
  const PreviewSize := 3

  /** `displayAlerts`: the whole filtered list when `showAll`, else its first three. */
  function DisplayAlerts(filtered: seq<Alert>, showAll: bool): (r: seq<Alert>)
    ensures r <= filtered
    ensures showAll ==> r == filtered
    ensures !showAll ==> |r| == if |filtered| < PreviewSize then |filtered| else PreviewSize
  {
    if showAll then filtered
    else if |filtered| < PreviewSize then filtered
    else filtered[..PreviewSize]
  }

  /** The "show more" control under the list. */
  datatype ShowMore = Hidden | ShowLess | ShowMoreRemaining(remaining: nat)

  function ShowMoreControl(filtered: seq<Alert>, showAll: bool): (r: ShowMore)
    ensures r.Hidden? <==> |filtered| <= PreviewSize
    ensures r.ShowLess? <==> |filtered| > PreviewSize && showAll
    ensures r.ShowMoreRemaining? ==> r.remaining == |filtered| - PreviewSize
  {
    if |filtered| <= PreviewSize then Hidden
    else if showAll then ShowLess
    else ShowMoreRemaining(|filtered| - PreviewSize)
  }

  /** The collapsed list and the count on the button add up to the filtered
      list: nothing is lost and nothing counted twice. */
  lemma ShownPlusRemaining(filtered: seq<Alert>)
    requires |filtered| > PreviewSize
    ensures ShowMoreControl(filtered, false).ShowMoreRemaining?
    ensures |DisplayAlerts(filtered, false)| + ShowMoreControl(filtered, false).remaining == |filtered|
  {
  }

  /** When the control is hidden, the collapsed list already shows everything. */
  lemma HiddenShowsAll(filtered: seq<Alert>, showAll: bool)
    requires ShowMoreControl(filtered, showAll).Hidden?
    ensures DisplayAlerts(filtered, showAll) == filtered
  {
  }

  /** `getUrgencyBadge`: the label, with unknown urgencies shown as medium. */
  function UrgencyBadge(urgency: string): (r: string)
    ensures r == "🟡 Média" <==> urgency !in ["critical", "high", "low"]
  {
    match urgency
    case "critical" => "🔴 Crítico"
    case "high" => "🟠 Alta"
    case "medium" => "🟡 Média"
    case "low" => "🟢 Baixa"
    case _ => "🟡 Média"
  }

  /** The local delete: every row except those with that id. */
  function WithoutId(alerts: seq<Alert>, id: string): (r: seq<Alert>)
    ensures |r| <= |alerts|
    ensures forall k :: 0 <= k < |r| ==> r[k].id != id
  {
    Filter(alerts, (alert: Alert) => alert.id != id)
  }

  /** The delete keeps every other row, in order, and drops nothing else;
      a missing id changes nothing. */
  lemma WithoutIdKeepsOthers(alerts: seq<Alert>, id: string, x: Alert)
    ensures x in WithoutId(alerts, id) <==> x in alerts && x.id != id
    ensures IsSubsequence(WithoutId(alerts, id), alerts)
    ensures (forall k :: 0 <= k < |alerts| ==> alerts[k].id != id) ==> WithoutId(alerts, id) == alerts
  {
    var keep := (alert: Alert) => alert.id != id;
    FilterMembership(alerts, keep, x);
    FilterIsSubsequence(alerts, keep);
    if forall k :: 0 <= k < |alerts| ==> alerts[k].id != id {
      FilterAll(alerts, keep);
    }
  }

  const NotSignedIn := "Usuário não autenticado"
  const LoadFailed := "Erro ao carregar alertas."
  const Deleted := "Alerta excluído com sucesso!"

  /** The list's state. */
  class AlertList {
    var alerts: seq<Alert>
    var loading: bool
    var error: string
    var successMessage: string
    var confirmDelete: Option<string>
    var searchTerm: string
    var showAll: bool

    constructor ()
      ensures alerts == [] && loading && error == [] && successMessage == []
      ensures confirmDelete.None? && searchTerm == [] && !showAll
    {
      alerts := [];
      loading := true;
      error := "";
      successMessage := "";
      confirmDelete := None;
      searchTerm := "";
      showAll := false;
    }

    /** What the list shows. */
    function Shown(): (r: seq<Alert>)
      reads this
      ensures r <= FilteredAlerts(alerts, searchTerm)
    {
      DisplayAlerts(FilteredAlerts(alerts, searchTerm), showAll)
    }

    /** `loadAlerts`. `user` is the signed-in uid; `fetched` is what the
        service returned, or `None` when it threw. */
    method LoadAlerts(user: Option<string>, fetched: Option<seq<Fetched>>, nowMs: int)
      modifies this`alerts, this`loading, this`error
      ensures !loading
      ensures user.None? ==> alerts == old(alerts) && error == NotSignedIn
      ensures user.Some? && fetched.None? ==> alerts == old(alerts) && error == LoadFailed
      ensures user.Some? && fetched.Some? ==>
                && error == []
                && NewestFirst(alerts)
                && multiset(alerts) == multiset(Map(fetched.value, (f: Fetched) => Normalise(f, nowMs)))
    {
      loading := true;
      if user.None? {
        error := NotSignedIn;
      } else if fetched.None? {
        error := LoadFailed;
      } else {
        var records := fetched.value;
        var formatted := new Alert[|records|](k requires 0 <= k < |records| => Normalise(records[k], nowMs));
        assert formatted[..] == Map(records, (f: Fetched) => Normalise(f, nowMs));
        SortNewestFirst(formatted);
        alerts := formatted[..];
        error := "";
      }
      loading := false;
    }

    /** `handleDeleteAlert`. Returns the argument handed to the service,
        which is the user's uid and not the alert's id; the service call
        itself does nothing and cannot fail. */
    method DeleteAlert(user: Option<string>, alertId: string) returns (serviceArg: Option<string>)
      modifies this`alerts, this`error, this`successMessage, this`confirmDelete
      ensures user.None? ==> serviceArg.None? && error == NotSignedIn && alerts == old(alerts)
      ensures user.None? ==> successMessage == old(successMessage) && confirmDelete == old(confirmDelete)
      ensures user.Some? ==> serviceArg == user && error == old(error)
      ensures user.Some? ==> alerts == WithoutId(old(alerts), alertId)
      ensures user.Some? ==> successMessage == Deleted && confirmDelete.None?
    {
      if user.None? {
        error := NotSignedIn;
        serviceArg := None;
        return;
      }
      serviceArg := Some(user.value);
      alerts := WithoutId(alerts, alertId);
      successMessage := Deleted;
      confirmDelete := None;
    }
  }
}
