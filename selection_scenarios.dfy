/** Sequences of widget events, driven the way the host drives them, with what
    the selection is at the end. */
module SelectionScenarios {
  import opened Wrappers
  import opened Entries
  import opened Selection

  /** Mounts a widget over `store` with usable parameters and runs the fetch
      callback on a response that resolves: the widget is then subscribed and
      loaded, and still mirrors the store's value. */
  method MountAndLoad(store: FieldStore, entityName: string, fieldsToUse: string, locale: string,
                      resp: Response, collate: (string, string) -> bool) returns (app: App)
    requires entityName != "" && fieldsToUse != ""
    requires Load(resp, fieldsToUse, locale, collate).Ok?
    ensures fresh(app) && app.field == store
    ensures app.subscribed && app.hasLoaded && app.pending.None?
    ensures app.items == Load(resp, fieldsToUse, locale, collate).value
    ensures app.value == store.value
  {
    app := new App(store);
    var m := app.ComponentDidMount(Parameters(Some(entityName), Some(fieldsToUse)), locale);
    assert m.Mounted?;
    var loaded := app.CompleteFetch(resp, collate);
  }

  /** A user's pick on a loaded widget reaches the store and comes back through
      the store's change notification: the widget then selects the picked id. */
  method PickRoundTrip(initial: StoreValue, id: string, entityName: string, fieldsToUse: string,
                       locale: string, resp: Response, collate: (string, string) -> bool)
    returns (selected: Option<string>)
    requires id != ""
    requires entityName != "" && fieldsToUse != ""
    requires Load(resp, fieldsToUse, locale, collate).Ok?
    ensures selected == Some(id)
  {
    var store := new FieldStore(initial);
    var app := MountAndLoad(store, entityName, fieldsToUse, locale, resp, collate);
    app.OnChange(id);
    assert app.value == initial;
    app.OnExternalChange(store.value);
    selected := app.SelectedItem();
  }

  /** An empty `onChange` value clears the store, and the notification clears
      the selection. */
  method ClearRoundTrip(initial: StoreValue, entityName: string, fieldsToUse: string,
                        locale: string, resp: Response, collate: (string, string) -> bool)
    returns (selected: Option<string>)
    requires entityName != "" && fieldsToUse != ""
    requires Load(resp, fieldsToUse, locale, collate).Ok?
    ensures selected.None?
  {
    var store := new FieldStore(initial);
    var app := MountAndLoad(store, entityName, fieldsToUse, locale, resp, collate);
    app.OnChange("");
    app.OnExternalChange(store.value);
    selected := app.SelectedItem();
  }

  /** After the fetch completes with the stored link `x` still selected, an
      external change to `y` wins over a local pick that has not come back yet. */
  method ExternalChangeWins(x: string, y: StoreValue, pick: string, entityName: string, fieldsToUse: string,
                            locale: string, resp: Response, collate: (string, string) -> bool)
    returns (selected: Option<string>)
    requires entityName != "" && fieldsToUse != ""
    requires Load(resp, fieldsToUse, locale, collate).Ok?
    ensures selected == SelectedId(y)
  {
    var store := new FieldStore(ToFieldValue(x));
    var app := MountAndLoad(store, entityName, fieldsToUse, locale, resp, collate);
    assert app.SelectedItem() == Some(x);
    app.OnChange(pick);
    assert app.SelectedItem() == Some(x);
    app.OnExternalChange(y);
    selected := app.SelectedItem();
  }

  /** Without an entity name nothing is fetched, and the widget stays in
      its loading state. */
  method MissingEntityName(initial: StoreValue, fieldsToUse: Option<string>) returns (fetching: bool, loaded: bool)
    ensures !fetching && !loaded
  {
    var store := new FieldStore(initial);
    var app := new App(store);
    var m := app.ComponentDidMount(Parameters(None, fieldsToUse), "en");
    assert m == Aborted(EntityNameRequired);
    fetching, loaded := app.pending.Some?, app.hasLoaded;
  }
}
