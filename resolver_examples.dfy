/** Worked cases of the display resolver on small entries: an article whose
    `category` field links to the entry "C1" with `name` "Drinks". */
module ResolverExamples {
  import opened Wrappers
  import opened JsStrings
  import opened Entries
  import opened Resolver

  predicate IsDrinks(c: Entry)
  {
    c == Entry("C1", map["name" := map["en" := Scalar("Drinks")]])
  }

  predicate IsArticle(a: Entry)
  {
    a == Entry("A", map["title" := map["en" := Scalar("Foo")], "category" := map["en" := Ref("C1")]])
  }

  /** A plain segment reads the field at the locale. */
  lemma PlainExample(a: Entry)
    requires IsArticle(a)
    ensures Display(a, "title", None, "en") == Ok("Foo")
  {
    SplitWithoutSeparator("title", ',');
    DisplayJoinsFragments(a, "title", None, "en", [Scalar("Foo")]);
  }

  /** A value missing at the locale joins as the empty string, not as "undefined". */
  lemma MissingLocaleExample(a: Entry)
    requires IsArticle(a)
    ensures Display(a, "title", None, "de") == Ok("")
  {
    SplitWithoutSeparator("title", ',');
    DisplayJoinsFragments(a, "title", None, "de", [Missing]);
  }

  lemma CategoryNameResolves(a: Entry, c: Entry, path: string)
    requires IsArticle(a) && IsDrinks(c) && path == "category.name"
    ensures Fragment(a, path, Some([c]), "en") == Ok(Scalar("Drinks"))
  {
    assert "category" + "." + "name" + "" == path;
    NavigationSucceeds(a, "category", "name", "", [c], "en", 0);
  }

  lemma TitleResolves(a: Entry, c: Entry, path: string)
    requires IsArticle(a) && IsDrinks(c) && path == "title"
    ensures Fragment(a, path, Some([c]), "en") == Ok(Scalar("Foo"))
  {
  }

  /** "category.name" follows the link to the included entry. */
  lemma NavigationExample(a: Entry, c: Entry, path: string)
    requires IsArticle(a) && IsDrinks(c) && path == "category.name"
    ensures Display(a, path, Some([c]), "en") == Ok("Drinks")
  {
    CategoryNameResolves(a, c, path);
    SingleSegmentDisplay(a, path, Some([c]), "en", Scalar("Drinks"));
  }

  /** Two segments join with " - ". */
  lemma JoinExample(a: Entry, c: Entry, p1: string, p2: string)
    requires IsArticle(a) && IsDrinks(c) && p1 == "title" && p2 == "category.name"
    ensures Display(a, p1 + "," + p2, Some([c]), "en") == Ok("Foo - Drinks")
  {
    JoinTexts();
    CategoryNameResolves(a, c, p2);
    TitleResolves(a, c, p1);
    TwoSegmentDisplay(a, p1, p2, Some([c]), "en", Scalar("Foo"), Scalar("Drinks"));
  }

  lemma JoinTexts()
    ensures JoinText(Scalar("Foo")) + FragmentSeparator + JoinText(Scalar("Drinks")) == "Foo - Drinks"
  {
  }

  /** When the linked entry is not among the includes, the fallback reads a
      field literally named "category.name", which the entry lacks: the read
      throws instead of showing the raw link. */
  lemma FallbackExample(a: Entry, path: string)
    requires IsArticle(a) && path == "category.name"
    ensures Fragment(a, path, Some([a]), "en") == Err(FieldMissing(path))
  {
    assert "category" + "." + "name" + "" == path;
    NavigationFallsBack(a, "category", "name", "", [a], "en");
  }

  /** Without includes a link field is read plainly, and the link object
      that reaches the join prints as "[object Object]". */
  lemma LinkTextExample(a: Entry)
    requires IsArticle(a)
    ensures Display(a, "category", None, "en") == Ok("[object Object]")
  {
    SplitWithoutSeparator("category", ',');
    DisplayJoinsFragments(a, "category", None, "en", [Ref("C1")]);
  }
}
