/** The comma-joined text in which a breach row keeps its data categories. */
module CategoryCodec {
  import opened IncidentModels
  import opened Splitting

  function Join(parts: seq<string>): string {
    if |parts| == 0 then "" else if |parts| == 1 then parts[0] else parts[0] + "," + Join(parts[1..])
  }

  /** Splitting undoes joining for every non-empty list of comma-free pieces. */
  lemma {:induction false} SplitUndoesJoin(parts: seq<string>)
    requires |parts| >= 1
    requires forall p :: p in parts ==> ',' !in p
    ensures Split(Join(parts), ',') == parts
  {
    if |parts| == 1 {
      SplitWithoutSeparator(parts[0], ',');
    } else {
      SplitAtSeparator(parts[0], Join(parts[1..]), ',');
      SplitUndoesJoin(parts[1..]);
    }
  }

  function CategoryText(category: PersonalDataCategory): string {
    match category
    case PersonalData => "PERSONAL_DATA"
    case SpecialCategoryPersonalData => "SPECIAL_CATEGORY_PERSONAL_DATA"
  }

  /** The enumeration constructor, which raises on a text that names no member. */
  function ParseCategory(text: string): Option<PersonalDataCategory> {
    if text == "PERSONAL_DATA" then Some(PersonalData)
    else if text == "SPECIAL_CATEGORY_PERSONAL_DATA" then Some(SpecialCategoryPersonalData)
    else None
  }

  /** The member texts in ascending order. */
  function SortedTexts(categories: set<PersonalDataCategory>): seq<string> {
    (if PersonalData in categories then [CategoryText(PersonalData)] else [])
    + (if SpecialCategoryPersonalData in categories then [CategoryText(SpecialCategoryPersonalData)] else [])
  }

  function EncodeCategories(categories: set<PersonalDataCategory>): string {
    Join(SortedTexts(categories))
  }

  function ParseAll(texts: seq<string>): Option<set<PersonalDataCategory>> {
    if |texts| == 0 then Some({})
    else
      match (ParseCategory(texts[0]), ParseAll(texts[1..]))
      case (Some(c), Some(rest)) => Some({c} + rest)
      case _ => None
  }

  function DecodeCategories(text: string): Option<set<PersonalDataCategory>> {
    ParseAll(Split(text, ','))
  }

  lemma {:induction false} ParseAllOfTexts(categories: set<PersonalDataCategory>)
    ensures ParseAll(SortedTexts(categories)) == Some(categories)
  {
    var texts := SortedTexts(categories);
    assert forall c :: c in categories ==> c == PersonalData || c == SpecialCategoryPersonalData;
    if categories == {PersonalData, SpecialCategoryPersonalData} {
      assert texts[1..][1..] == [];
      assert ParseAll(texts[1..]) == Some({SpecialCategoryPersonalData} + {});
      assert categories == {PersonalData} + ({SpecialCategoryPersonalData} + {});
    } else if PersonalData in categories {
      assert categories == {PersonalData} + {};
      assert texts[1..] == [];
    } else if SpecialCategoryPersonalData in categories {
      assert categories == {SpecialCategoryPersonalData} + {};
      assert texts[1..] == [];
    } else {
      assert categories == {};
    }
  }

  /** The stored text reads back as the written set exactly when the set is not
      empty; the empty set is stored as a text that no longer decodes. */
  lemma CategoriesRoundTrip(categories: set<PersonalDataCategory>)
    ensures DecodeCategories(EncodeCategories(categories)) == Some(categories) <==> categories != {}
    ensures categories == {} ==> DecodeCategories(EncodeCategories(categories)) == None
  {
    var texts := SortedTexts(categories);
    if categories == {} {
      assert Split("", ',') == [""];
    } else {
      var c :| c in categories;
      assert CategoryText(c) in texts;
      SplitUndoesJoin(texts);
      ParseAllOfTexts(categories);
    }
  }
}
