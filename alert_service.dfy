/** The alert service (src/services/firebaseService.ts): the records it
    stores and returns, the expiry default, the service-side markup, the
    per-type section defaults and the normalisation of fetched documents.
    The document database itself is outside the model: its results arrive
    as parameters. */
module AlertService {
  import opened Common
  import opened Markup

  /** One titled block of an announcement (`AlertSection`). */
  datatype Section = Section(
    id: string,
    sectionType: string,
    title: string,
    content: string,
    backgroundColor: string,
    textColor: string,
    icon: Option<string>,
    bulletColor: Option<string>)

  /** What the form hands to `createAlert`: every field of `AlertData`
      except the four the service fills in. */
  datatype AlertInput = AlertInput(
    sections: seq<Section>,
    mainTitle: string,
    urgency: string,
    expirationDate: Option<string>,
    isActive: bool,
    gratitudeMessage: string)

  /** `AlertData`; times are milliseconds since the epoch. `isActive` is
      optional because a fetched document may lack it, and
      `gratitudeMessage` is carried only by records `createAlert` returns. */
  datatype AlertData = AlertData(
    id: string,
    sections: seq<Section>,
    mainTitle: string,
    urgency: string,
    expirationDate: Option<string>,
    isActive: Option<bool>,
    createdAt: int,
    expiresAt: int,
    createdBy: string,
    gratitudeMessage: Option<string>)

  /** 72 hours in milliseconds. */
  const DefaultLifetimeMs: int := 72 * 60 * 60 * 1000

  /** JavaScript `value || fallback` on an optional string: the empty string
      counts as missing. */
  function OrElse(value: Option<string>, fallback: string): (r: string)
    ensures (value.Some? && value.value != []) ==> r == value.value
    ensures (value.None? || value.value == []) ==> r == fallback
  {
    if value.Some? && value.value != [] then value.value else fallback
  }

  /** JavaScript truthiness of an optional string. */
  predicate Present(value: Option<string>)
  {
    value.Some? && value.value != []
  }

  /** The expiry `createAlert` computes: the chosen date when one is given,
      otherwise 72 hours after `nowMs`. Date parsing is a parameter. */
  function ExpiresAt(expirationDate: Option<string>, nowMs: int, parseDate: string -> int): (r: int)
    ensures Present(expirationDate) ==> r == parseDate(expirationDate.value)
    ensures !Present(expirationDate) ==> r - nowMs == DefaultLifetimeMs
  {
    if Present(expirationDate) then parseDate(expirationDate.value) else nowMs + DefaultLifetimeMs
  }

  /** Without a chosen date an alert lives exactly 259 200 000 ms. */
  lemma DefaultExpiry(expirationDate: Option<string>, nowMs: int, parseDate: string -> int)
    requires !Present(expirationDate)
    ensures ExpiresAt(expirationDate, nowMs, parseDate) - nowMs == 259200000
  {
  }

  /** A chosen date wins over the default, whatever the clock says. */
  lemma ChosenExpiry(date: string, nowMs: int, laterMs: int, parseDate: string -> int)
    requires date != []
    ensures ExpiresAt(Some(date), nowMs, parseDate) == ExpiresAt(Some(date), laterMs, parseDate)
    ensures ExpiresAt(Some(date), nowMs, parseDate) == parseDate(date)
  {
  }

  /** `createAlert`: the record it returns after the write. `docId` is the
      identifier the database assigned, or `None` when the write failed (the
      service then rethrows, modelled as `None`). */
  function CreateAlert(userId: string, input: AlertInput, docId: Option<string>, nowMs: int,
                       parseDate: string -> int): (r: Option<AlertData>)
    ensures r.Some? <==> docId.Some?
    ensures r.Some? ==>
              && r.value.id == docId.value
              && r.value.sections == input.sections
              && r.value.mainTitle == input.mainTitle
              && r.value.urgency == input.urgency
              && r.value.expirationDate == input.expirationDate
              && r.value.isActive == Some(input.isActive)
              && r.value.gratitudeMessage == Some(input.gratitudeMessage)
              && r.value.createdAt == nowMs
              && r.value.createdBy == userId
              && r.value.expiresAt == ExpiresAt(input.expirationDate, nowMs, parseDate)
  {
    match docId
    case None => None
    case Some(id) =>
      Some(AlertData(id, input.sections, input.mainTitle, input.urgency, input.expirationDate,
                     Some(input.isActive), nowMs, ExpiresAt(input.expirationDate, nowMs, parseDate),
                     userId, Some(input.gratitudeMessage)))
  }

  /** A successful create without a chosen date expires 72 hours after it
      was created. */
  lemma CreatedAlertLifetime(userId: string, input: AlertInput, id: string, nowMs: int,
                             parseDate: string -> int)
    requires !Present(input.expirationDate)
    ensures CreateAlert(userId, input, Some(id), nowMs, parseDate).Some?
    ensures var a := CreateAlert(userId, input, Some(id), nowMs, parseDate).value;
            a.expiresAt - a.createdAt == DefaultLifetimeMs && a.createdBy == userId
  {
  }

  /** `parseAlertContent`: bold first, then italics. */
  function ParseAlertContent(content: string): (r: string)
    ensures content != [] ==> r != []
  {
    ReplaceAll(ReplaceAll(content, Strong), Emphasis)
  }

  /** Text without a star passes through untouched. */
  lemma AlertContentWithoutStars(content: string)
    requires '*' !in content
    ensures ParseAlertContent(content) == content
  {
    NoMarkerUnchanged(content, Strong);
    NoMarkerUnchanged(content, Emphasis);
  }

  /** `**x**` becomes bold, not an italic run inside stars. */
  lemma AlertContentBold(x: string)
    requires '*' !in x
    requires forall m :: 0 <= m < |x| ==> !Text.IsLineTerminator(x[m])
    ensures ParseAlertContent("**" + x + "**") == "<strong>" + x + "</strong>"
  {
    BoldPass(x);
    StarFree("<strong>", x, "</strong>");
    NoMarkerUnchanged("<strong>" + x + "</strong>", Emphasis);
  }

  /** The bold pass on one `**x**` run. */
  lemma BoldPass(x: string)
    requires '*' !in x
    requires forall m :: 0 <= m < |x| ==> !Text.IsLineTerminator(x[m])
    ensures ReplaceAll("**" + x + "**", Strong) == "<strong>" + x + "</strong>"
  {
    MatchedAlone(x, Strong);
  }

  /** Sequence bookkeeping: no star in any of three star-free parts. */
  lemma StarFree(a: string, x: string, b: string)
    requires '*' !in a && '*' !in x && '*' !in b
    ensures '*' !in a + x + b
  {
  }

  /** `*x*` with a non-empty `x` becomes italic. (`**` on its own is an
      empty bold run instead.) */
  lemma AlertContentItalic(x: string)
    requires x != [] && '*' !in x
    requires forall m :: 0 <= m < |x| ==> !Text.IsLineTerminator(x[m])
    ensures ParseAlertContent("*" + x + "*") == "<em>" + x + "</em>"
  {
    ParseStrongSkipsItalic(x);
    assert "*" + x + "*" == Emphasis.open + x + Emphasis.close + [];
    MatchedRun(x, [], Emphasis);
    assert ReplaceAll([], Emphasis) == [];
  }

  /** The bold pass leaves a single-star run with something inside alone. */
  lemma ParseStrongSkipsItalic(x: string)
    requires x != [] && '*' !in x
    ensures ReplaceAll("*" + x + "*", Strong) == "*" + x + "*"
  {
    var s := "*" + x + "*";
    assert Strong.open == "**";
    forall i | 0 <= i < |s| ensures !(Strong.open <= s[i..]) {
      if i + 1 < |s| {
        if i == 0 {
          assert s[1] == x[0];
        } else {
          assert s[i] == x[i - 1];
        }
        assert s[i..][0] == s[i] && s[i..][1] == s[i + 1];
      }
    }
    NoOpenerUnchanged(s, Strong);
  }

  /** Colours and icon of one section type in the service's defaults table. */
  datatype Style = Style(backgroundColor: string, textColor: string, icon: string, bulletColor: Option<string>)

  /** The defaults table of `createDefaultSection`: an entry exactly for the
      six known types, all with white text, and a bullet colour only for
      `procedure`. */
  function DefaultStyle(sectionType: string): (r: Option<Style>)
    ensures r.Some? <==> KnownType(sectionType)
    ensures r.Some? ==> r.value.textColor == "#FFFFFF"
    ensures r.Some? ==> (r.value.bulletColor.Some? <==> sectionType == "procedure")
  {
    match sectionType
    case "title" => Some(Style("#2196F3", "#FFFFFF", "🏷️", None))
    case "warning" => Some(Style("#F44336", "#FFFFFF", "⚠️", None))
    case "info" => Some(Style("#2196F3", "#FFFFFF", "📢", None))
    case "procedure" => Some(Style("#4CAF50", "#FFFFFF", "📋", Some("#FFFFFF")))
    case "important" => Some(Style("#FF9800", "#FFFFFF", "❗", None))
    case "note" => Some(Style("#9C27B0", "#FFFFFF", "💡", None))
    case _ => None
  }

  /** The title chain of `createDefaultSection`: 'Informação' is the
      fallback, and no named type gets it. */
  function DefaultTitle(sectionType: string): (r: string)
    ensures r == "Informação" <==> sectionType !in ["title", "warning", "procedure", "important", "note"]
  {
    if sectionType == "title" then "Título Principal"
    else if sectionType == "warning" then "Aviso Urgente"
    else if sectionType == "procedure" then "Procedimento Correto"
    else if sectionType == "important" then "Importante"
    else if sectionType == "note" then "Observações"
    else "Informação"
  }

  /** The six section types the service knows. */
  predicate KnownType(sectionType: string)
  {
    sectionType in ["title", "warning", "info", "procedure", "important", "note"]
  }

  /** `createDefaultSection`; `id` stands for `Date.now().toString()`. */
  function CreateDefaultSection(sectionType: string, id: string): (r: Section)
    ensures r.sectionType == sectionType && r.id == id && r.content == []
    ensures r.icon.Some?
    ensures r.bulletColor.Some? <==> sectionType == "procedure"
    ensures r.bulletColor.Some? ==> r.bulletColor.value == "#FFFFFF"
    ensures r.textColor == "#FFFFFF"
    ensures !KnownType(sectionType) ==>
              && r.backgroundColor == DefaultStyle("info").value.backgroundColor
              && r.icon == Some(DefaultStyle("info").value.icon)
    ensures KnownType(sectionType) ==>
              && r.backgroundColor == DefaultStyle(sectionType).value.backgroundColor
              && r.icon == Some(DefaultStyle(sectionType).value.icon)
    ensures sectionType == "title" ==> r.title == "Título Principal"
    ensures sectionType == "warning" ==> r.title == "Aviso Urgente"
    ensures sectionType == "procedure" ==> r.title == "Procedimento Correto"
    ensures sectionType == "important" ==> r.title == "Importante"
    ensures sectionType == "note" ==> r.title == "Observações"
    ensures r.title == "Informação" <==> sectionType !in ["title", "warning", "procedure", "important", "note"]
  {
    var style := match DefaultStyle(sectionType)
      case Some(s) => s
      case None => DefaultStyle("info").value;
    Section(id, sectionType, DefaultTitle(sectionType), "", style.backgroundColor, style.textColor,
            Some(style.icon), style.bulletColor)
  }

  /** A document as it comes back from the `alerts` collection: any field may
      be missing. */
  datatype StoredAlert = StoredAlert(
    sections: Option<seq<Section>>,
    mainTitle: Option<string>,
    urgency: Option<string>,
    expirationDate: Option<string>,
    isActive: Option<bool>,
    createdAt: Option<int>,
    expiresAt: Option<int>,
    createdBy: Option<string>)

  /** The record `getActiveAlerts` pushes for one document. */
  function NormaliseStored(docId: string, data: StoredAlert, nowMs: int): (r: AlertData)
    ensures r.id == docId
    ensures r.sections == (if data.sections.Some? then data.sections.value else [])
    ensures r.mainTitle == (if Present(data.mainTitle) then data.mainTitle.value else "")
    ensures r.urgency == (if Present(data.urgency) then data.urgency.value else "medium")
    ensures r.expirationDate == (if Present(data.expirationDate) then data.expirationDate else None)
    ensures r.isActive == data.isActive
    ensures r.createdAt == (if data.createdAt.Some? then data.createdAt.value else nowMs)
    ensures r.expiresAt == (if data.expiresAt.Some? then data.expiresAt.value else nowMs)
    ensures r.createdBy == (if Present(data.createdBy) then data.createdBy.value else "Sistema")
    ensures r.gratitudeMessage.None?
  {
    AlertData(
      docId,
      if data.sections.Some? then data.sections.value else [],
      OrElse(data.mainTitle, ""),
      OrElse(data.urgency, "medium"),
      if Present(data.expirationDate) then data.expirationDate else None,
      data.isActive,
      if data.createdAt.Some? then data.createdAt.value else nowMs,
      if data.expiresAt.Some? then data.expiresAt.value else nowMs,
      OrElse(data.createdBy, "Sistema"),
      None)
  }

  /** A normalised record always has an urgency and an author. */
  lemma NormalisedHasDefaults(docId: string, data: StoredAlert, nowMs: int)
    ensures NormaliseStored(docId, data, nowMs).urgency != []
    ensures NormaliseStored(docId, data, nowMs).createdBy != []
    ensures NormaliseStored(docId, data, nowMs).expirationDate.Some? ==>
              NormaliseStored(docId, data, nowMs).expirationDate.value != []
  {
  }

  /** One document of the query result: its identifier and its data. */
  datatype StoredDoc = StoredDoc(id: string, data: StoredAlert)

  /** The `forEach`/`push` loop of `getActiveAlerts`: one normalised record
      per document, in query order. `snapshot` is `None` when the query
      failed, and the service then answers with no alerts. */
  method CollectActiveAlerts(snapshot: Option<seq<StoredDoc>>, nowMs: int) returns (alerts: seq<AlertData>)
    ensures snapshot.None? ==> alerts == []
    ensures snapshot.Some? ==> |alerts| == |snapshot.value|
    ensures snapshot.Some? ==>
              forall k :: 0 <= k < |alerts| ==>
                alerts[k] == NormaliseStored(snapshot.value[k].id, snapshot.value[k].data, nowMs)
  {
    alerts := [];
    if snapshot.None? {
      return;
    }
    var docs := snapshot.value;
    var i := 0;
    while i < |docs|
      invariant 0 <= i <= |docs|
      invariant |alerts| == i
      invariant forall k :: 0 <= k < i ==> alerts[k] == NormaliseStored(docs[k].id, docs[k].data, nowMs)
    {
      alerts := alerts + [NormaliseStored(docs[i].id, docs[i].data, nowMs)];
      i := i + 1;
    }
  }
}
