/** The display-label resolver of the fetch callback: every fetched entry is
    turned into an `Item` whose label joins, with " - ", one fragment per
    comma-separated segment of the `fieldstouse` parameter. A segment with a
    dot names a link field and a field of the linked entry, resolved through
    the `includes.Entry` list; otherwise, or when that navigation misses, the
    segment names a field of the entry itself. */
module Resolver {
  import opened Wrappers
  import opened JsStrings
  import opened Entries

  /** The separator placed between fragments. */
  const FragmentSeparator: string := " - "

  /** `r.fields[seg][lang]`, throwing when the entry has no field `seg`. */
  function Plain(r: Entry, seg: string, lang: string): (res: Result<Value>)
    ensures res.Err? <==> seg !in r.fields
    ensures res.Err? ==> res.error == FieldMissing(seg)
    ensures res.Ok? ==> res.value == AtLocale(r.fields[seg], lang)
  {
    if seg in r.fields then Ok(AtLocale(r.fields[seg], lang)) else Err(FieldMissing(seg))
  }

  /** The navigation attempt for link field `a` and target field `b`:
      `Ok(Some(v))` when it yields a fragment, `Ok(None)` when the callback falls
      through to the plain read, `Err` when a read throws. */
  function Navigate(r: Entry, a: string, b: string, includes: seq<Entry>, lang: string): Result<Option<Value>>
  {
    if a !in r.fields then Ok(None)               // no field `a`: not an object
    else
      match AtLocale(r.fields[a], lang)
      case Ref(id) =>
        if id == "" then Ok(None)                 // an empty id is falsy
        else (
          match Find(includes, id)
          case None => Ok(None)
          case Some(target) =>
            if b !in target.fields then Err(TargetFieldMissing(target.id, b))
            else
              var v := AtLocale(target.fields[b], lang);
              if Truthy(v) then Ok(Some(v)) else Ok(None))
      case _ => Err(ReferenceIdUnreadable(a)) // `sys` of undefined, or `id` of a string's missing `sys`
  }

  /** Whether the callback attempts navigation for a segment: it contains a dot
      and `includes` is a non-empty list. */
  predicate Navigates(seg: string, includes: Option<seq<Entry>>)
  {
    '.' in seg && includes.Some? && |includes.value| > 0
  }

  /** The fragment of one segment. */
  function Fragment(r: Entry, seg: string, includes: Option<seq<Entry>>, lang: string): Result<Value>
  {
    if Navigates(seg, includes) then
      var parts := Split(seg, '.');
      match Navigate(r, parts[0], parts[1], includes.value, lang)
      case Err(e) => Err(e)
      case Ok(Some(v)) => Ok(v)
      case Ok(None) => Plain(r, seg, lang)
    else Plain(r, seg, lang)
  }

  /** The fragments of all segments, in order; the first segment that throws
      aborts the whole list with its error. */
  function Fragments(r: Entry, segs: seq<string>, includes: Option<seq<Entry>>, lang: string): (res: Result<seq<Value>>)
    ensures res.Ok? <==> forall i :: 0 <= i < |segs| ==> Fragment(r, segs[i], includes, lang).Ok?
    ensures res.Ok? ==> |res.value| == |segs|
    ensures res.Ok? ==> forall i :: 0 <= i < |segs| ==> res.value[i] == Fragment(r, segs[i], includes, lang).value
    ensures res.Err? ==> exists i :: 0 <= i < |segs| && Fragment(r, segs[i], includes, lang) == Err(res.error)
                                     && forall j :: 0 <= j < i ==> Fragment(r, segs[j], includes, lang).Ok?
  {
    MapAll(segs, seg => Fragment(r, seg, includes, lang))
  }

  /** The text each fragment contributes to the join. */
  function Texts(vs: seq<Value>): (ts: seq<string>)
    ensures |ts| == |vs|
    ensures forall i :: 0 <= i < |vs| ==> ts[i] == JoinText(vs[i])
  {
    seq(|vs|, i requires 0 <= i < |vs| => JoinText(vs[i]))
  }

  /** The label of one entry: `fieldsToUse.split(',')`, one fragment per
      segment, joined with " - ". */
  function Display(r: Entry, fieldsToUse: string, includes: Option<seq<Entry>>, lang: string): Result<string>
  {
    match Fragments(r, Split(fieldsToUse, ','), includes, lang)
    case Err(e) => Err(e)
    case Ok(vs) => Ok(Join(Texts(vs), FragmentSeparator))
  }

  /** `{value: r.sys.id, display}` for one entry. */
  function ResolveEntry(r: Entry, fieldsToUse: string, includes: Option<seq<Entry>>, lang: string): (res: Result<Item>)
    ensures res.Ok? ==> res.value.value == r.id
    ensures res.Ok? <==> Display(r, fieldsToUse, includes, lang).Ok?
    ensures res.Ok? ==> res.value.display == Display(r, fieldsToUse, includes, lang).value
    ensures res.Err? ==> res.error == Display(r, fieldsToUse, includes, lang).error
  {
    match Display(r, fieldsToUse, includes, lang)
    case Err(e) => Err(e)
    case Ok(d) => Ok(Item(r.id, d))
  }

  /** `resp.items.map(...)`: one item per fetched entry, in fetch order; the
      first entry whose label throws aborts the whole list with its error. */
  function ResolveAll(entries: seq<Entry>, fieldsToUse: string, includes: Option<seq<Entry>>, lang: string): (res: Result<seq<Item>>)
    ensures res.Ok? <==> forall i :: 0 <= i < |entries| ==> ResolveEntry(entries[i], fieldsToUse, includes, lang).Ok?
    ensures res.Ok? ==> |res.value| == |entries|
    ensures res.Ok? ==> forall i :: 0 <= i < |entries| ==>
                          res.value[i] == ResolveEntry(entries[i], fieldsToUse, includes, lang).value
                          && res.value[i].value == entries[i].id
    ensures res.Err? ==> exists i :: 0 <= i < |entries| && ResolveEntry(entries[i], fieldsToUse, includes, lang) == Err(res.error)
                                     && forall j :: 0 <= j < i ==> ResolveEntry(entries[j], fieldsToUse, includes, lang).Ok?
  {
    MapAll(entries, e => ResolveEntry(e, fieldsToUse, includes, lang))
  }

  /** The label is the fragments' texts, one per comma-separated segment
      (empty and untrimmed segments included), joined with " - ". */
  lemma DisplayJoinsFragments(r: Entry, fieldsToUse: string, includes: Option<seq<Entry>>, lang: string, vs: seq<Value>)
    requires |vs| == Count(fieldsToUse, ',') + 1
    requires forall i :: 0 <= i < |vs| ==> Fragment(r, Split(fieldsToUse, ',')[i], includes, lang) == Ok(vs[i])
    ensures Display(r, fieldsToUse, includes, lang) == Ok(Join(Texts(vs), FragmentSeparator))
  {
    var segs := Split(fieldsToUse, ',');
    var res := Fragments(r, segs, includes, lang);
    assert res.Ok?;
    assert res.value == vs;
  }

  /** The label throws with the error of the first segment whose fragment
      throws. */
  lemma DisplayThrowsAtFirstFailure(r: Entry, fieldsToUse: string, includes: Option<seq<Entry>>, lang: string, i: nat)
    requires i < |Split(fieldsToUse, ',')|
    requires Fragment(r, Split(fieldsToUse, ',')[i], includes, lang).Err?
    requires forall j :: 0 <= j < i ==> Fragment(r, Split(fieldsToUse, ',')[j], includes, lang).Ok?
    ensures Display(r, fieldsToUse, includes, lang) == Err(Fragment(r, Split(fieldsToUse, ',')[i], includes, lang).error)
  {
    MapAllFirstFailure(Split(fieldsToUse, ','), seg => Fragment(r, seg, includes, lang), i);
  }

  /** A specification without commas is one segment: the label is that
      segment's fragment text, with no separator. */
  lemma SingleSegmentDisplay(r: Entry, seg: string, includes: Option<seq<Entry>>, lang: string, v: Value)
    requires ',' !in seg
    requires Fragment(r, seg, includes, lang) == Ok(v)
    ensures Display(r, seg, includes, lang) == Ok(JoinText(v))
  {
    SplitWithoutSeparator(seg, ',');
    DisplayJoinsFragments(r, seg, includes, lang, [v]);
  }

  /** A single segment whose fragment throws makes the label throw. */
  lemma SingleSegmentThrows(r: Entry, seg: string, includes: Option<seq<Entry>>, lang: string, e: TypeError)
    requires ',' !in seg
    requires Fragment(r, seg, includes, lang) == Err(e)
    ensures Display(r, seg, includes, lang) == Err(e)
  {
    SplitWithoutSeparator(seg, ',');
  }

  /** Two comma-free segments: their fragment texts around one " - ". */
  lemma TwoSegmentDisplay(r: Entry, s1: string, s2: string, includes: Option<seq<Entry>>, lang: string, v1: Value, v2: Value)
    requires ',' !in s1 && ',' !in s2
    requires Fragment(r, s1, includes, lang) == Ok(v1) && Fragment(r, s2, includes, lang) == Ok(v2)
    ensures Display(r, s1 + "," + s2, includes, lang) == Ok(JoinText(v1) + FragmentSeparator + JoinText(v2))
  {
    assert s1 + "," + s2 == s1 + [','] + s2;
    SplitAfterPiece(s1, s2, ',');
    SplitWithoutSeparator(s2, ',');
    DisplayJoinsFragments(r, s1 + "," + s2, includes, lang, [v1, v2]);
  }

  /** The first two dot-parts of a segment "a.b" or "a.b.c...". */
  lemma DotParts(a: string, b: string, tail: string)
    requires '.' !in a && '.' !in b
    requires tail == "" || tail[0] == '.'
    ensures var parts := Split(a + "." + b + tail, '.'); |parts| >= 2 && parts[0] == a && parts[1] == b
  {
    assert a + "." + b + tail == a + ['.'] + b + tail;
    FirstTwoPieces(a, b, tail, '.');
  }

  /** Without a dot, or without included entries, a segment is read plainly. */
  lemma PlainWithoutNavigation(r: Entry, seg: string, includes: Option<seq<Entry>>, lang: string)
    requires '.' !in seg || includes.None? || includes.value == []
    ensures Fragment(r, seg, includes, lang) == Plain(r, seg, lang)
  {
  }

  /** Navigation success: "a.b" yields `fields[b][lang]` of the first included
      entry whose id is the one linked from `fields[a][lang]`, when that id is
      non-empty and the target value is truthy. */
  lemma NavigationSucceeds(r: Entry, a: string, b: string, tail: string, includes: seq<Entry>, lang: string, k: nat)
    requires '.' !in a && '.' !in b && (tail == "" || tail[0] == '.')
    requires a in r.fields && AtLocale(r.fields[a], lang).Ref?
    requires AtLocale(r.fields[a], lang).id != ""
    requires k < |includes| && includes[k].id == AtLocale(r.fields[a], lang).id
    requires forall j :: 0 <= j < k ==> includes[j].id != includes[k].id
    requires b in includes[k].fields && Truthy(AtLocale(includes[k].fields[b], lang))
    ensures Fragment(r, a + "." + b + tail, Some(includes), lang) == Ok(AtLocale(includes[k].fields[b], lang))
  {
    DotParts(a, b, tail);
    FindFirst(includes, includes[k].id, k);
  }

  /** Navigation failure falls back to reading the WHOLE segment as a field name
      of the entry: when `fields[a]` is absent, the linked id is empty, no
      included entry has it, or the target value is falsy. */
  lemma NavigationFallsBack(r: Entry, a: string, b: string, tail: string, includes: seq<Entry>, lang: string)
    requires '.' !in a && '.' !in b && (tail == "" || tail[0] == '.')
    requires |includes| > 0
    requires a !in r.fields
             || (AtLocale(r.fields[a], lang).Ref?
                 && var id := AtLocale(r.fields[a], lang).id;
                    || id == ""
                    || (forall k :: 0 <= k < |includes| ==> includes[k].id != id)
                    || (Find(includes, id).Some? && b in Find(includes, id).value.fields
                        && !Truthy(AtLocale(Find(includes, id).value.fields[b], lang))))
    ensures Fragment(r, a + "." + b + tail, Some(includes), lang) == Plain(r, a + "." + b + tail, lang)
  {
    DotParts(a, b, tail);
  }

  /** The link-id read (src/index.tsx:86) throws when `fields[a]` exists but
      its value at the locale is no link: `undefined` has no `sys`, and a
      string's `sys` is `undefined`, which has no `id`. */
  lemma ReferenceReadThrows(r: Entry, a: string, b: string, tail: string, includes: seq<Entry>, lang: string)
    requires '.' !in a && '.' !in b && (tail == "" || tail[0] == '.')
    requires |includes| > 0
    requires a in r.fields && !AtLocale(r.fields[a], lang).Ref?
    ensures Fragment(r, a + "." + b + tail, Some(includes), lang) == Err(ReferenceIdUnreadable(a))
  {
    DotParts(a, b, tail);
  }

  /** The target read (src/index.tsx:90) throws when the first included entry
      with the linked id has no field `b` at all. */
  lemma TargetFieldThrows(r: Entry, a: string, b: string, tail: string, includes: seq<Entry>, lang: string, k: nat)
    requires '.' !in a && '.' !in b && (tail == "" || tail[0] == '.')
    requires a in r.fields && AtLocale(r.fields[a], lang).Ref?
    requires AtLocale(r.fields[a], lang).id != ""
    requires k < |includes| && includes[k].id == AtLocale(r.fields[a], lang).id
    requires forall j :: 0 <= j < k ==> includes[j].id != includes[k].id
    requires b !in includes[k].fields
    ensures Fragment(r, a + "." + b + tail, Some(includes), lang) == Err(TargetFieldMissing(includes[k].id, b))
  {
    DotParts(a, b, tail);
    FindFirst(includes, includes[k].id, k);
  }
}
