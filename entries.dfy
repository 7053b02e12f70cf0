/** The data the display resolver works on: published entries as the content
    delivery API returns them (`sys.id` plus localized fields), the bulk
    response with its optional `includes.Entry` list, and the JavaScript
    behaviour of reading, testing and stringifying a field value. */
module Entries {
  import opened Wrappers

  /** What `fields[name][locale]` holds: a string, a link object `{sys: {id}}`,
      or `undefined`/`null`, which are read, tested and joined alike. */
  datatype Value = Scalar(text: string) | Ref(id: string) | Missing

  /** One field: locale code to value. */
  type LocalizedField = map<string, Value>

  /** An entry's `fields`: field name to localized field. */
  type Fields = map<string, LocalizedField>

  /** A published entry: `sys.id` and `fields`. */
  datatype Entry = Entry(id: string, fields: Fields)

  /** The `includes` object of a bulk response; `Entry` may be absent. */
  datatype Includes = Includes(entries: Option<seq<Entry>>)

  /** The resolved promise value of the bulk fetch. */
  datatype Response = Response(items: seq<Entry>, includes: Option<Includes>)

  /** One option of the dropdown: `value` is the entry id, `display` its label. */
  datatype Item = Item(value: string, display: string)

  /** The TypeErrors the resolver can raise, by the read that raises them. */
  datatype TypeError =
    | ReferenceIdUnreadable(field: string)              // the link id read on a value that is no link
    | TargetFieldMissing(entry: string, field: string)  // the target field absent on the included entry
    | FieldMissing(field: string)                       // the segment's field absent on the fetched entry

  /** A computation that either yields a value or throws a TypeError. */
  datatype Result<+T> = Ok(value: T) | Err(error: TypeError)

  /** `xs.map(f)` where `f` may throw: the results in order, or the error of
      the first element on which `f` throws. */
  function MapAll<A, B>(xs: seq<A>, f: A -> Result<B>): (res: Result<seq<B>>)
    ensures res.Ok? <==> forall i :: 0 <= i < |xs| ==> f(xs[i]).Ok?
    ensures res.Ok? ==> |res.value| == |xs| && forall i :: 0 <= i < |xs| ==> res.value[i] == f(xs[i]).value
    ensures res.Err? ==> exists i :: 0 <= i < |xs| && f(xs[i]) == Err(res.error)
                                     && forall j :: 0 <= j < i ==> f(xs[j]).Ok?
  {
    if |xs| == 0 then Ok([])
    else
      match f(xs[0])
      case Err(e) => Err(e)
      case Ok(y) =>
        var rest := MapAll(xs[1..], f);
        assert forall i :: 1 <= i < |xs| ==> xs[i] == xs[1..][i - 1];
        match rest
        case Err(e) =>
          assert exists i :: 1 <= i < |xs| && f(xs[i]) == Err(e) && forall j :: 0 <= j < i ==> f(xs[j]).Ok? by {
            var i :| 0 <= i < |xs[1..]| && f(xs[1..][i]) == Err(e) && forall j :: 0 <= j < i ==> f(xs[1..][j]).Ok?;
            assert forall j :: 0 <= j < i + 1 ==> f(xs[j]).Ok? by {
              forall j | 0 <= j < i + 1 ensures f(xs[j]).Ok? {
                if j > 0 { assert xs[j] == xs[1..][j - 1]; }
              }
            }
          }
          Err(e)
        case Ok(ys) => Ok([y] + ys)
  }

  /** MapAll fails with the error of the first element on which `f` throws. */
  lemma MapAllFirstFailure<A, B>(xs: seq<A>, f: A -> Result<B>, i: nat)
    requires i < |xs| && f(xs[i]).Err?
    requires forall j :: 0 <= j < i ==> f(xs[j]).Ok?
    ensures MapAll(xs, f) == Err(f(xs[i]).error)
  {
    var res := MapAll(xs, f);
    var i' :| 0 <= i' < |xs| && f(xs[i']) == Err(res.error) && forall j :: 0 <= j < i' ==> f(xs[j]).Ok?;
    assert i' == i;
  }

  /** `includes['Entry']` when `includes` is present, else `undefined`. */
  function IncludedEntries(resp: Response): (r: Option<seq<Entry>>)
    ensures resp.includes.None? ==> r.None?
    ensures resp.includes.Some? ==> r == resp.includes.value.entries
  {
    match resp.includes
    case None => None
    case Some(inc) => inc.entries
  }

  /** `field[lang]`: a locale without a value reads as `undefined`. */
  function AtLocale(field: LocalizedField, lang: string): (v: Value)
    ensures lang !in field ==> v.Missing?
    ensures lang in field ==> v == field[lang]
  {
    if lang in field then field[lang] else Missing
  }

  /** JavaScript truthiness of a value: the empty string, `undefined` and
      `null` are falsy, every other string and every object is truthy. */
  predicate Truthy(v: Value)
  {
    match v
    case Scalar(s) => s != ""
    case Ref(_) => true
    case Missing => false
  }

  /** How `Array.prototype.join` turns an element into text (ECMA-262, 2023
      edition, section 23.1.3.18): `undefined` and `null` become the empty
      string, other values go through ToString, which for a plain object is
      "[object Object]". */
  function JoinText(v: Value): (t: string)
    ensures v.Missing? ==> t == ""
    ensures v.Scalar? ==> t == v.text
    ensures v.Ref? ==> t == "[object Object]"
  {
    match v
    case Scalar(s) => s
    case Ref(_) => "[object Object]"
    case Missing => ""
  }

  /** `includes.find(x => x.sys.id == id)`: the first entry with that id. */
  function Find(includes: seq<Entry>, id: string): (r: Option<Entry>)
    ensures r.None? <==> forall k :: 0 <= k < |includes| ==> includes[k].id != id
    ensures r.Some? ==> exists k :: 0 <= k < |includes| && includes[k] == r.value && r.value.id == id
                                    && forall j :: 0 <= j < k ==> includes[j].id != id
  {
    if |includes| == 0 then None
    else if includes[0].id == id then Some(includes[0])
    else
      var r := Find(includes[1..], id);
      assert r.Some? ==> exists k :: 1 <= k < |includes| && includes[k] == r.value && r.value.id == id
                                    && forall j :: 0 <= j < k ==> includes[j].id != id by {
        if r.Some? {
          var k :| 0 <= k < |includes[1..]| && includes[1..][k] == r.value && r.value.id == id
                   && forall j :: 0 <= j < k ==> includes[1..][j].id != id;
          assert forall j :: 0 <= j < k + 1 ==> includes[j].id != id by {
            forall j | 0 <= j < k + 1 ensures includes[j].id != id {
              if j > 0 { assert includes[j] == includes[1..][j - 1]; }
            }
          }
        }
      }
      r
  }

  /** Find returns exactly the entry at the first index holding the id. */
  lemma {:induction false} FindFirst(includes: seq<Entry>, id: string, k: nat)
    requires k < |includes| && includes[k].id == id
    requires forall j :: 0 <= j < k ==> includes[j].id != id
    ensures Find(includes, id) == Some(includes[k])
    decreases k
  {
    if k > 0 {
      assert includes[0].id != id;
      assert forall j :: 0 <= j < k - 1 ==> includes[1..][j].id != id by {
        forall j | 0 <= j < k - 1 ensures includes[1..][j].id != id { assert includes[1..][j] == includes[j + 1]; }
      }
      FindFirst(includes[1..], id, k - 1);
    }
  }
}
