/** The WHERE clauses of user listings: _apply_filters. */
module UserQueries {
  import opened Common
  import opened Like
  import opened Users

  datatype Filters = Filters(role: Option<Role>, isActive: Option<bool>, search: Option<string>)

  /** `if search:` - no search, or an empty one, filters nothing. */
  predicate SearchPasses(fold: char -> char, search: Option<string>, u: User) {
    search.None? || search.value == ""
    || IMatches(fold, SearchPattern(search.value), u.data.email)
    || IMatches(fold, SearchPattern(search.value), u.data.name)
  }

  predicate Passes(fold: char -> char, f: Filters, u: User) {
    && (f.role.Some? ==> u.data.role == f.role.value)
    && (f.isActive.Some? ==> u.data.isActive == f.isActive.value)
    && SearchPasses(fold, f.search, u)
  }

  /** What the filters mean: equal role, equal flag, and the search text in email or name, ignoring case. */
  lemma FiltersMean(fold: char -> char, f: Filters, u: User)
    requires FixesMeta(fold) && KeepsOrdinary(fold)
    ensures Passes(fold, f, u) <==>
            && (f.role == None || f.role == Some(u.data.role))
            && (f.isActive == None || f.isActive == Some(u.data.isActive))
            && (f.search == None || exists text: string ::
                  (text == u.data.email || text == u.data.name)
                  && Contains(Fold(fold, text), Fold(fold, f.search.value)))
  {
    if f.search.Some? {
      var s := f.search.value;
      FoldedSearch(fold, s, u.data.email);
      FoldedSearch(fold, s, u.data.name);
      if s == "" {
        assert OccursAt(Fold(fold, u.data.email), Fold(fold, s), 0);
      }
      if Contains(Fold(fold, u.data.email), Fold(fold, s)) {
        var text := u.data.email;
        assert Contains(Fold(fold, text), Fold(fold, s));
      }
      if Contains(Fold(fold, u.data.name), Fold(fold, s)) {
        var text := u.data.name;
        assert Contains(Fold(fold, text), Fold(fold, s));
      }
    }
  }
}
