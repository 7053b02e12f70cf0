/** The widget's state machine: the selected link it mirrors (`value`),
    whether the fetch has completed (`hasLoaded`) and the dropdown's items,
    next to the field store of the host, which owns the persisted link. */
module Selection {
  import opened Wrappers
  import opened Entries
  import opened Resolver
  import opened Sorting

  /** The `sys` part of a link. */
  datatype LinkSys = LinkSys(id: string, linkType: string, sysType: string)

  /** A field-store value: nothing, or a link object whose `sys` may be absent. */
  datatype StoreValue = Absent | Link(sys: Option<LinkSys>)

  /** `toFieldValue(id)`: a link to the entry `id`. */
  function ToFieldValue(id: string): (v: StoreValue)
    ensures v.Link? && v.sys.Some?
    ensures v.sys.value.linkType == "Entry" && v.sys.value.sysType == "Link"
    ensures v.sys.value.id == id
  {
    Link(Some(LinkSys(id, "Entry", "Link")))
  }

  /** `selectedItem()`: the id of the selected link, `undefined` (None) when
      there is no value or it has no `sys`. */
  function SelectedId(v: StoreValue): (r: Option<string>)
    ensures r.None? <==> v.Absent? || v.sys.None?
    ensures r.Some? ==> r.value == v.sys.value.id
  {
    match v
    case Absent => None
    case Link(sys) =>
      match sys
      case None => None
      case Some(s) => Some(s.id)
  }

  /** Reading back a written link gives the id that was written. */
  lemma SelectedIdOfFieldValue(id: string)
    ensures SelectedId(ToFieldValue(id)) == Some(id)
  {
  }

  /** Two links built from ids are equal exactly when the ids are. */
  lemma ToFieldValueInjective(id1: string, id2: string)
    ensures ToFieldValue(id1) == ToFieldValue(id2) <==> id1 == id2
  {
    SelectedIdOfFieldValue(id1);
    SelectedIdOfFieldValue(id2);
  }

  /** The instance parameters of the widget. */
  datatype Parameters = Parameters(entityName: Option<string>, fieldsToUse: Option<string>)

  /** Why mounting aborts. */
  datatype ConfigError = EntityNameRequired | FieldsToUseRequired

  /** The arguments of the bulk fetch, with what its callback closes over. */
  datatype Query = Query(contentType: string, limit: nat, includeDepth: nat, fieldsToUse: string, locale: string)

  /** Outcome of the parameter check. */
  datatype Mount = Mounted(query: Query) | Aborted(reason: ConfigError)

  /** The page size and reference depth of the fetch. */
  const FetchLimit: nat := 1000
  const IncludeDepth: nat := 2

  /** A parameter is usable when it is present and not the empty string. */
  predicate Given(p: Option<string>)
  {
    p.Some? && p.value != ""
  }

  /** The parameter check: the entity name first, then the fields to use;
      when both are given, the fetch the widget issues. */
  function CheckConfig(params: Parameters, locale: string): (m: Mount)
    ensures m.Mounted? <==> Given(params.entityName) && Given(params.fieldsToUse)
    ensures m.Aborted? ==> (m.reason == EntityNameRequired <==> !Given(params.entityName))
    ensures m.Mounted? ==>
              && m.query.contentType == params.entityName.value
              && m.query.fieldsToUse == params.fieldsToUse.value
              && m.query.locale == locale
              && m.query.limit == FetchLimit && m.query.includeDepth == IncludeDepth
  {
    if !Given(params.entityName) then Aborted(EntityNameRequired)
    else if !Given(params.fieldsToUse) then Aborted(FieldsToUseRequired)
    else Mounted(Query(params.entityName.value, FetchLimit, IncludeDepth, params.fieldsToUse.value, locale))
  }

  /** What the fetch callback computes from the response: the resolved items,
      sorted descending by label, or the TypeError that aborts it. */
  function Load(resp: Response, fieldsToUse: string, locale: string, collate: (string, string) -> bool): (res: Result<seq<Item>>)
    ensures res.Ok? <==> ResolveAll(resp.items, fieldsToUse, IncludedEntries(resp), locale).Ok?
    ensures res.Ok? ==> multiset(res.value) == multiset(ResolveAll(resp.items, fieldsToUse, IncludedEntries(resp), locale).value)
    ensures res.Err? ==> res.error == ResolveAll(resp.items, fieldsToUse, IncludedEntries(resp), locale).error
  {
    match ResolveAll(resp.items, fieldsToUse, IncludedEntries(resp), locale)
    case Err(e) => Err(e)
    case Ok(items) => Ok(SortDescending(items, collate))
  }

  /** A loaded list is in descending label order and holds exactly the
      resolved items, one per fetched entry, each carrying an entry's id. */
  lemma LoadedItems(resp: Response, fieldsToUse: string, locale: string, collate: (string, string) -> bool)
    requires TotalPreorder(collate)
    requires Load(resp, fieldsToUse, locale, collate).Ok?
    ensures var items := Load(resp, fieldsToUse, locale, collate).value;
            && |items| == |resp.items|
            && SortedDescending(items, collate)
            && multiset(items) == multiset(ResolveAll(resp.items, fieldsToUse, IncludedEntries(resp), locale).value)
            && forall it :: it in items ==> exists k :: 0 <= k < |resp.items| && it.value == resp.items[k].id
  {
    var resolved := ResolveAll(resp.items, fieldsToUse, IncludedEntries(resp), locale).value;
    var items := Load(resp, fieldsToUse, locale, collate).value;
    SortDescendingSorted(resolved, collate);
    forall it | it in items ensures exists k :: 0 <= k < |resp.items| && it.value == resp.items[k].id {
      assert it in multiset(resolved);
      var k :| 0 <= k < |resolved| && resolved[k] == it;
    }
  }

  /** The host's field store: one persisted value. */
  class FieldStore {
    var value: StoreValue

    constructor (initial: StoreValue)
      ensures value == initial
    {
      value := initial;
    }

    /** `setValue(v)`, taken as completed at once. */
    method SetValue(v: StoreValue)
      modifies this
      ensures value == v
    {
      value := v;
    }

    /** `removeValue()`, taken as completed at once. */
    method RemoveValue()
      modifies this
      ensures value == Absent
    {
      value := Absent;
    }
  }

  /** The widget component and its state. */
  class App {
    const field: FieldStore
    var value: StoreValue
    var error: bool
    var hasLoaded: bool
    var items: seq<Item>
    /** Whether the external-change handler is attached. */
    var subscribed: bool
    /** The fetch issued by mounting whose callback has not run yet. */
    var pending: Option<Query>

    /** The state is seeded from the field store before anything is fetched. */
    constructor (field: FieldStore)
      ensures this.field == field
      ensures value == field.value
      ensures !error && !hasLoaded && items == []
      ensures !subscribed && pending.None?
    {
      this.field := field;
      value := field.value;
      error := false;
      hasLoaded := false;
      items := [];
      subscribed := false;
      pending := None;
    }

    /** `selectedItem()`. */
    function SelectedItem(): Option<string>
      reads this
    {
      SelectedId(value)
    }

    /** `componentDidMount()`: attaches the external-change handler, then checks
        the parameters; only when both are given is the fetch issued. */
    method ComponentDidMount(params: Parameters, defaultLocale: string) returns (m: Mount)
      modifies this`subscribed, this`pending
      ensures subscribed
      ensures m == CheckConfig(params, defaultLocale)
      ensures pending == if m.Mounted? then Some(m.query) else old(pending)
      ensures value == old(value) && hasLoaded == old(hasLoaded) && items == old(items)
    {
      subscribed := true;
      m := CheckConfig(params, defaultLocale);
      if m.Mounted? {
        pending := Some(m.query);
      }
    }

    /** The fetch callback: on success the sorted items are stored and the
        widget is loaded; when resolving throws, the state is left as it was,
        still loading. The selection is never touched. */
    method CompleteFetch(resp: Response, collate: (string, string) -> bool) returns (res: Result<seq<Item>>)
      requires pending.Some?
      modifies this`hasLoaded, this`items, this`pending
      ensures res == Load(resp, old(pending).value.fieldsToUse, old(pending).value.locale, collate)
      ensures pending.None?
      ensures res.Ok? ==> hasLoaded && items == res.value
      ensures res.Err? ==> hasLoaded == old(hasLoaded) && items == old(items)
      ensures value == old(value)
    {
      var q := pending.value;
      pending := None;
      res := Load(resp, q.fieldsToUse, q.locale, collate);
      if res.Ok? {
        hasLoaded, items := true, res.value;
      }
    }

    /** `onExternalChange(v)`: the incoming value replaces the local one. The
        store calls it only while the handler mounting attached is in place. */
    method OnExternalChange(v: StoreValue)
      requires subscribed
      modifies this`value
      ensures value == v
      ensures SelectedItem() == SelectedId(v)
    {
      value := v;
    }

    /** `onChange`: a non-empty id is written to the store as a link, the empty
        id clears it; the local value waits for the store's notification. The
        select that calls it is rendered only once the widget has loaded. */
    method OnChange(selected: string)
      requires hasLoaded
      modifies field
      ensures field.value == if selected != "" then ToFieldValue(selected) else Absent
      ensures value == old(value)
    {
      if selected != "" {
        field.SetValue(ToFieldValue(selected));
      } else {
        field.RemoveValue();
      }
    }

    /** `componentWillUnmount()`: detaches the external-change handler. */
    method ComponentWillUnmount()
      modifies this`subscribed
      ensures !subscribed
    {
      subscribed := false;
    }
  }
}
