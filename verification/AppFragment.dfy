/**
 * The per-app screen (AppFragment.kt): the templates that apply to the shown package, sorted by
 * name with the locale's collator; whether the "create template" footer is shown; and the list
 * position scrolled to when the template editor returns.
 */
module AppFragment {
  import opened Wrappers
  import opened AppListLoader

  /** The collator's comparison, read as "sorts no later than": total and transitive. */
  ghost predicate TotalPreorder(le: (string, string) -> bool)
  {
    && (forall a, b :: le(a, b) || le(b, a))
    && (forall a, b, c :: le(a, b) && le(b, c) ==> le(a, c))
  }

  /** The templates are in collator order of their names. */
  ghost predicate SortedByName(le: (string, string) -> bool, ts: seq<Template>)
  {
    forall i, j :: 0 <= i < j < |ts| ==> le(ts[i].templateName, ts[j].templateName)
  }

  /** `it.applyToApp?.contains(packageName) == true`. */
  predicate AppliesTo(t: Template, packageName: string)
  {
    t.applyToApp.Some? && packageName in t.applyToApp.value
  }

  /** The `filter` step: the templates that name `packageName`, in their original order. */
  function FilterByPackage(templates: seq<Template>, packageName: string): (r: seq<Template>)
    ensures forall t :: multiset(r)[t] == if AppliesTo(t, packageName) then multiset(templates)[t] else 0
  {
    if templates == [] then []
    else
      var rest := FilterByPackage(templates[1..], packageName);
      assert templates == [templates[0]] + templates[1..];
      if AppliesTo(templates[0], packageName) then [templates[0]] + rest else rest
  }

  /** A template whose name sorts no later than every name of a sorted list may go in front of it. */
  lemma SortedCons(le: (string, string) -> bool, x: Template, ts: seq<Template>)
    requires SortedByName(le, ts)
    requires forall u :: u in ts ==> le(x.templateName, u.templateName)
    ensures SortedByName(le, [x] + ts)
  {
    var r := [x] + ts;
    forall i, j | 0 <= i < j < |r| ensures le(r[i].templateName, r[j].templateName) {
      if i > 0 {
        assert r[i] == ts[i - 1] && r[j] == ts[j - 1];
      } else {
        assert r[j] in ts;
      }
    }
  }

  /** Places `t` before the first template whose name sorts strictly after it. */
  function InsertByName(le: (string, string) -> bool, t: Template, ts: seq<Template>): (r: seq<Template>)
    requires TotalPreorder(le) && SortedByName(le, ts)
    ensures multiset(r) == multiset(ts) + multiset{t}
    ensures SortedByName(le, r)
  {
    if ts == [] || le(t.templateName, ts[0].templateName) then
      SortedCons(le, t, ts);
      [t] + ts
    else
      var rest := InsertByName(le, t, ts[1..]);
      assert ts == [ts[0]] + ts[1..];
      assert forall u :: u in rest ==> le(ts[0].templateName, u.templateName) by {
        forall u | u in rest ensures le(ts[0].templateName, u.templateName) {
          assert u in multiset(rest);
          if u != t {
            assert u in ts[1..];
          }
        }
      }
      SortedCons(le, ts[0], rest);
      [ts[0]] + rest
  }

  /** The `sortedWith` step: the templates in collator order of their names. */
  function SortByName(le: (string, string) -> bool, ts: seq<Template>): (r: seq<Template>)
    requires TotalPreorder(le)
    ensures multiset(r) == multiset(ts)
    ensures SortedByName(le, r)
  {
    if ts == [] then []
    else
      assert ts == [ts[0]] + ts[1..];
      InsertByName(le, ts[0], SortByName(le, ts[1..]))
  }

  /** `prepareCurrentList`: exactly the templates that name the package, each as often as it occurs,
    * sorted by name with the collator. */
  function PrepareCurrentList(templates: seq<Template>, packageName: string, le: (string, string) -> bool): (r: seq<Template>)
    requires TotalPreorder(le)
    ensures forall t :: multiset(r)[t] == if AppliesTo(t, packageName) then multiset(templates)[t] else 0
    ensures forall t :: t in r <==> t in templates && AppliesTo(t, packageName)
    ensures SortedByName(le, r)
  {
    SortByName(le, FilterByPackage(templates, packageName))
  }

  /** Whether the footer adapter stays in the list: no listed template carries the screen's label as name. */
  function FooterShown(currentList: seq<Template>, appLabel: string): (r: bool)
    ensures r <==> forall t :: t in currentList ==> t.templateName != appLabel
  {
    !exists i :: 0 <= i < |currentList| && currentList[i].templateName == appLabel
  }

  /** `indexOfFirst { it.templateName == name }`, where `name` may be null. */
  function IndexOfFirstNamed(list: seq<Template>, name: Option<string>): (r: int)
    ensures -1 <= r < |list|
    ensures r == -1 <==> forall i :: 0 <= i < |list| ==> Some(list[i].templateName) != name
    ensures 0 <= r ==> Some(list[r].templateName) == name
    ensures forall i :: 0 <= i < r ==> Some(list[i].templateName) != name
  {
    if list == [] then -1
    else if Some(list[0].templateName) == name then 0
    else
      var k := IndexOfFirstNamed(list[1..], name);
      if k == -1 then -1 else k + 1
  }

  /**
   * The position scrolled to when the template editor returns `name`: one past the index of the
   * first listed template of that name (the header takes position 0), or, when none is listed,
   * the concatenated adapters' item count less the footer's.
   */
  function ScrollPosition(currentList: seq<Template>, name: Option<string>,
                          adaptersItemCount: int, footerItemCount: int): (position: int)
    ensures (exists i :: 0 <= i < |currentList| && Some(currentList[i].templateName) == name) ==>
      1 <= position <= |currentList| &&
      Some(currentList[position - 1].templateName) == name &&
      forall i :: 0 <= i < position - 1 ==> Some(currentList[i].templateName) != name
    ensures (forall i :: 0 <= i < |currentList| ==> Some(currentList[i].templateName) != name) ==>
      position == adaptersItemCount - footerItemCount
  {
    var position := IndexOfFirstNamed(currentList, name);
    if position != -1 then position + 1 else adaptersItemCount - footerItemCount
  }

  /** The fragment's state: its navigation arguments, the collator, and what the result listener
    * and the preference observer last did. */
  class AppFragment {
    /** `args.pi.packageName` */
    const packageName: string
    /** `args.label` */
    const appLabel: string
    /** `Collator.getInstance()`'s comparison */
    const collatorLe: (string, string) -> bool
    /** `CreateTemplateFragment.NULL_TEMPLATE_NAME` */
    const nullTemplateName: string

    var lastTemplateName: Option<string>
    /** The list last submitted to the templates adapter. */
    var submittedList: seq<Template>
    /** Whether the templates footer adapter is part of the concatenated adapter. */
    var footerAttached: bool

    ghost predicate Valid()
      reads this
    {
      TotalPreorder(collatorLe)
    }

    constructor (packageName: string, appLabel: string, collatorLe: (string, string) -> bool, nullTemplateName: string)
      requires TotalPreorder(collatorLe)
      ensures Valid()
      ensures this.packageName == packageName && this.appLabel == appLabel
      ensures this.collatorLe == collatorLe && this.nullTemplateName == nullTemplateName
      ensures lastTemplateName == None && submittedList == [] && footerAttached
    {
      this.packageName := packageName;
      this.appLabel := appLabel;
      this.collatorLe := collatorLe;
      this.nullTemplateName := nullTemplateName;
      lastTemplateName := None;
      submittedList := [];
      footerAttached := true;
    }

    /** The observer of the template preferences: submit the current list, then remove the footer
      * when a listed template carries the screen's label as its name and add it otherwise. */
    method OnTemplatesChanged(templates: seq<Template>)
      requires Valid()
      modifies this`submittedList, this`footerAttached
      ensures submittedList == PrepareCurrentList(templates, packageName, collatorLe)
      ensures footerAttached <==> forall t :: t in submittedList ==> t.templateName != appLabel
    {
      var currentList := PrepareCurrentList(templates, packageName, collatorLe);
      submittedList := currentList;
      if !FooterShown(currentList, appLabel) {
        footerAttached := false;
      } else {
        footerAttached := true;
      }
    }

    /** The `CreateTemplateFragment` result listener: remember the returned name and compute the
      * position to scroll to, forgetting the name when it is not listed. */
    method OnCreateTemplateResult(templates: seq<Template>, returnedName: Option<string>,
                                  adaptersItemCount: int, footerItemCount: int) returns (position: int)
      requires Valid()
      modifies this`lastTemplateName
      ensures var currentList := PrepareCurrentList(templates, packageName, collatorLe);
        && position == ScrollPosition(currentList, returnedName, adaptersItemCount, footerItemCount)
        && lastTemplateName == if IndexOfFirstNamed(currentList, returnedName) != -1 then returnedName else Some(nullTemplateName)
    {
      lastTemplateName := returnedName;
      var currentList := PrepareCurrentList(templates, packageName, collatorLe);
      position := IndexOfFirstNamed(currentList, lastTemplateName);
      if position != -1 {
        position := position + 1;
      } else {
        position := adaptersItemCount - footerItemCount;
        lastTemplateName := Some(nullTemplateName);
      }
    }
  }
}
