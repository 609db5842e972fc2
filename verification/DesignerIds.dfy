/**
 Row ids of the core designer. The reducer composes them from a tab id, the
 template id of the view ("" for the main view) and a local id
 (store/core-designer/reducer.ts); the epics take them apart again
 (store/core-designer/epics.ts).
 */
module DesignerIds {
  import opened Options
  import opened Strings

  datatype TabIds = TabIds(tabId: string, id: string)

  /** `templateId` is "" where the source answers `null`. */
  datatype ViewIds = ViewIds(tabId: string, templateId: string, id: string)

  datatype ViewIdsList = ViewIdsList(tabId: Option<string>, templateId: Option<string>, ids: seq<string>)

  /** An id in the scope of a tab: plugins, templates and instances. */
  function TabScoped(tabId: string, id: string): string {
    tabId + ":" + id
  }

  /** An id in the scope of a view: components and bindings. */
  function ViewScoped(tabId: string, templateId: string, id: string): string {
    tabId + ":" + templateId + ":" + id
  }

  /** `extractIds`; `None` is the thrown "Bad id". */
  function ExtractIds(fullId: string): Option<TabIds> {
    var sepPos := IndexOf(fullId, ':');
    if sepPos < 0 then None else Some(TabIds(fullId[..sepPos], fullId[sepPos + 1..]))
  }

  /** `extractIdsWithTemplate`. */
  function ExtractIdsWithTemplate(fullId: string): Option<ViewIds> {
    match ExtractIds(fullId)
    case None => None
    case Some(outer) =>
      match ExtractIds(outer.id)
      case None => None
      case Some(inner) => Some(ViewIds(outer.tabId, inner.tabId, inner.id))
  }

  lemma ExtractIdsInverts(tabId: string, id: string)
    requires Free(tabId, ':')
    ensures ExtractIds(TabScoped(tabId, id)) == Some(TabIds(tabId, id))
  {
    IndexOfFirst(tabId, ':', id);
    var s := TabScoped(tabId, id);
    assert s == tabId + [':'] + id;
    assert s[..|tabId|] == tabId && s[|tabId| + 1..] == id;
  }

  lemma ExtractIdsComposes(fullId: string)
    requires ExtractIds(fullId).Some?
    ensures var r := ExtractIds(fullId).value; TabScoped(r.tabId, r.id) == fullId && Free(r.tabId, ':')
  {
    var p := IndexOf(fullId, ':');
    assert fullId == fullId[..p] + [fullId[p]] + fullId[p + 1..];
  }

  /**
   Taking apart inverts composing: the local id may itself contain colons, as
   binding ids do; the tab and template ids may not.
   */
  lemma ExtractInvertsCompose(tabId: string, templateId: string, id: string)
    requires Free(tabId, ':') && Free(templateId, ':')
    ensures ExtractIdsWithTemplate(ViewScoped(tabId, templateId, id)) == Some(ViewIds(tabId, templateId, id))
  {
    ExtractIdsInverts(tabId, templateId + ":" + id);
    assert ViewScoped(tabId, templateId, id) == TabScoped(tabId, templateId + ":" + id);
    ExtractIdsInverts(templateId, id);
    assert templateId + ":" + id == TabScoped(templateId, id);
  }

  /** Composing inverts taking apart: every id that can be taken apart was composed, in one way only. */
  lemma ComposeInvertsExtract(fullId: string)
    requires ExtractIdsWithTemplate(fullId).Some?
    ensures var r := ExtractIdsWithTemplate(fullId).value;
            ViewScoped(r.tabId, r.templateId, r.id) == fullId && Free(r.tabId, ':') && Free(r.templateId, ':')
  {
    ExtractIdsComposes(fullId);
    var outer := ExtractIds(fullId).value;
    ExtractIdsComposes(outer.id);
    var inner := ExtractIds(outer.id).value;
    assert fullId == outer.tabId + ":" + (inner.tabId + ":" + inner.id);
  }

  /** Composed ids never collide across tabs or views. */
  lemma ComposedIdsDistinct(tab1: string, tpl1: string, id1: string, tab2: string, tpl2: string, id2: string)
    requires Free(tab1, ':') && Free(tpl1, ':') && Free(tab2, ':') && Free(tpl2, ':')
    requires ViewScoped(tab1, tpl1, id1) == ViewScoped(tab2, tpl2, id2)
    ensures tab1 == tab2 && tpl1 == tpl2 && id1 == id2
  {
    ExtractInvertsCompose(tab1, tpl1, id1);
    ExtractInvertsCompose(tab2, tpl2, id2);
  }

  // ----- lists of ids -----

  ghost predicate AllParse(fullIds: seq<string>) {
    forall i :: 0 <= i < |fullIds| ==> ExtractIdsWithTemplate(fullIds[i]).Some?
  }

  ghost predicate SameView(a: string, b: string)
    requires ExtractIdsWithTemplate(a).Some? && ExtractIdsWithTemplate(b).Some?
  {
    var x, y := ExtractIdsWithTemplate(a).value, ExtractIdsWithTemplate(b).value;
    x.tabId == y.tabId && x.templateId == y.templateId
  }

  /** An id with a tab fixes the view of every later id; ids with an empty tab fix nothing. */
  ghost predicate Compatible(fullIds: seq<string>)
    requires AllParse(fullIds)
  {
    forall i, j :: 0 <= i < j < |fullIds| && ExtractIdsWithTemplate(fullIds[i]).value.tabId != ""
      ==> SameView(fullIds[i], fullIds[j])
  }

  /**
   `extractIdsListWithTemplate`; `None` is a thrown error. The test `!finalTabId`
   treats an empty tab id like "not set yet".
   */
  method ExtractIdsListWithTemplate(fullIds: seq<string>) returns (r: Option<ViewIdsList>)
    ensures r.Some? <==> AllParse(fullIds) && Compatible(fullIds)
    ensures r.Some? ==> |r.value.ids| == |fullIds|
    ensures r.Some? ==> forall i :: 0 <= i < |fullIds| ==> r.value.ids[i] == ExtractIdsWithTemplate(fullIds[i]).value.id
    ensures r.Some? ==> forall i :: 0 <= i < |fullIds| && ExtractIdsWithTemplate(fullIds[i]).value.tabId != "" ==>
              r.value.tabId == Some(ExtractIdsWithTemplate(fullIds[i]).value.tabId)
              && r.value.templateId == Some(ExtractIdsWithTemplate(fullIds[i]).value.templateId)
    ensures r.Some? ==> (r.value.tabId.None? <==> fullIds == []) && (r.value.templateId.None? <==> fullIds == [])
  {
    hide ExtractIdsWithTemplate;
    var ids: seq<string> := [];
    var finalTabId: Option<string> := None;
    var finalTemplateId: Option<string> := None;
    for k := 0 to |fullIds|
      invariant AllParse(fullIds[..k]) && Compatible(fullIds[..k])
      invariant |ids| == k && forall i :: 0 <= i < k ==> ids[i] == ExtractIdsWithTemplate(fullIds[i]).value.id
      invariant finalTabId.None? <==> k == 0
      invariant finalTemplateId.None? <==> k == 0
      invariant forall i :: 0 <= i < k && ExtractIdsWithTemplate(fullIds[i]).value.tabId != "" ==>
                  finalTabId == Some(ExtractIdsWithTemplate(fullIds[i]).value.tabId)
                  && finalTemplateId == Some(ExtractIdsWithTemplate(fullIds[i]).value.templateId)
      invariant finalTabId.Some? && finalTabId.value != "" ==>
                  exists i :: 0 <= i < k && ExtractIdsWithTemplate(fullIds[i]).value.tabId == finalTabId.value
    {
      assert fullIds[..k + 1][k] == fullIds[k];
      assert forall i :: 0 <= i < k ==> fullIds[..k + 1][i] == fullIds[..k][i] == fullIds[i];
      match ExtractIdsWithTemplate(fullIds[k]) {
        case None => return None;
        case Some(x) =>
          if finalTabId.None? || finalTabId.value == "" {
            finalTabId := Some(x.tabId);
            finalTemplateId := Some(x.templateId);
          } else if x.tabId != finalTabId.value {
            Mismatch(fullIds, k, finalTabId.value, finalTemplateId.value);
            return None;
          } else if x.templateId != finalTemplateId.value {
            Mismatch(fullIds, k, finalTabId.value, finalTemplateId.value);
            return None;
          }
          ids := ids + [x.id];
      }
    }
    assert fullIds[..|fullIds|] == fullIds;
    r := Some(ViewIdsList(finalTabId, finalTemplateId, ids));
  }

  lemma Mismatch(fullIds: seq<string>, k: nat, tabId: string, templateId: string)
    requires k < |fullIds| && AllParse(fullIds[..k]) && tabId != ""
    requires exists i :: 0 <= i < k && ExtractIdsWithTemplate(fullIds[i]).value.tabId == tabId
                         && ExtractIdsWithTemplate(fullIds[i]).value.templateId == templateId
    requires ExtractIdsWithTemplate(fullIds[k]).Some?
    requires ExtractIdsWithTemplate(fullIds[k]).value.tabId != tabId
          || ExtractIdsWithTemplate(fullIds[k]).value.templateId != templateId
    ensures !(AllParse(fullIds) && Compatible(fullIds))
  {
    hide ExtractIdsWithTemplate;
    var i :| 0 <= i < k && ExtractIdsWithTemplate(fullIds[i]).value.tabId == tabId
             && ExtractIdsWithTemplate(fullIds[i]).value.templateId == templateId;
    assert AllParse(fullIds) ==> !SameView(fullIds[i], fullIds[k]);
  }

  /** With non-empty tab ids, `Compatible` says that all ids share one tab and view. */
  lemma CompatibleMeansOneView(fullIds: seq<string>)
    requires AllParse(fullIds)
    requires forall i :: 0 <= i < |fullIds| ==> ExtractIdsWithTemplate(fullIds[i]).value.tabId != ""
    ensures Compatible(fullIds) <==>
            forall i, j :: 0 <= i < |fullIds| && 0 <= j < |fullIds| ==> SameView(fullIds[i], fullIds[j])
  {
    hide ExtractIdsWithTemplate;
    if Compatible(fullIds) {
      forall i, j | 0 <= i < |fullIds| && 0 <= j < |fullIds| ensures SameView(fullIds[i], fullIds[j]) {
        if i > j { assert SameView(fullIds[j], fullIds[i]); }
      }
    }
  }

  /** Without a tab id the check is lost: the two ids are of different views, and are accepted. */
  lemma EmptyTabIsNotChecked(tabId: string, templateId: string, a: string, b: string)
    requires tabId != "" && Free(tabId, ':') && Free(templateId, ':')
    ensures var fullIds := [ViewScoped("", "", a), ViewScoped(tabId, templateId, b)];
            AllParse(fullIds) && Compatible(fullIds) && !SameView(fullIds[0], fullIds[1])
  {
    ExtractInvertsCompose("", "", a);
    ExtractInvertsCompose(tabId, templateId, b);
  }

  // ----- the owner of a row -----

  /** The tab a row id belongs to. */
  function TabOf(fullId: string): string {
    match ExtractIds(fullId)
    case None => ""
    case Some(r) => r.tabId
  }

  /** The key of a view: the tab id for a main view, the template's row id for a template. */
  function ViewKey(tabId: string, templateId: string): string {
    if templateId == "" then tabId else TabScoped(tabId, templateId)
  }

  /** The view a component or binding id belongs to. */
  function ViewOf(fullId: string): string {
    match ExtractIdsWithTemplate(fullId)
    case None => ""
    case Some(r) => ViewKey(r.tabId, r.templateId)
  }

  lemma OwnersOfComposed(tabId: string, templateId: string, id: string)
    requires Free(tabId, ':') && Free(templateId, ':')
    ensures TabOf(TabScoped(tabId, id)) == tabId
    ensures TabOf(ViewScoped(tabId, templateId, id)) == tabId
    ensures ViewOf(ViewScoped(tabId, templateId, id)) == ViewKey(tabId, templateId)
    ensures templateId != "" ==> TabOf(ViewKey(tabId, templateId)) == tabId
    ensures Free(ViewKey(tabId, templateId), ':') <==> templateId == ""
  {
    ExtractIdsInverts(tabId, id);
    ExtractIdsInverts(tabId, templateId);
    ExtractIdsInverts(tabId, templateId + ":" + id);
    assert ViewScoped(tabId, templateId, id) == TabScoped(tabId, templateId + ":" + id);
    ExtractInvertsCompose(tabId, templateId, id);
    assert TabScoped(tabId, templateId)[|tabId|] == ':';
  }
}
