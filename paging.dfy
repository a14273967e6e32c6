/**
 * The page window shared by the listing queries: `get_all_categories` in
 * src/queries/categories_queries.rs and `get_all_user_habits`,
 * `get_all_category_habits` and `get_all_user_category_habits` in
 * src/queries/habits_queries.rs each default the page and page size, cap the
 * page size, and pass `limit` and `offset` to the query.
 */
module Paging {
  import opened Wrappers
  import Utils

  /** The `.limit(..)` and `.offset(..)` a listing query runs with. */
  datatype Window = Window(limit: int, offset: int)

  /** The page size after defaulting and capping: at most `MaxQueryLimit`, with no lower bound. */
  function PageSize(perPage: Option<int>): (size: int)
    ensures size <= Utils.MaxQueryLimit
    ensures perPage.None? ==> size == Utils.DefaultQueryLimit
    ensures perPage.Some? && perPage.value <= Utils.MaxQueryLimit ==> size == perPage.value
    ensures perPage.Some? && perPage.value > Utils.MaxQueryLimit ==> size == Utils.MaxQueryLimit
  {
    var size := perPage.GetOr(Utils.DefaultQueryLimit);
    if size > Utils.MaxQueryLimit then Utils.MaxQueryLimit else size
  }

  /** The window of page `page` (1-based, first page by default). */
  function PageWindow(page: Option<int>, perPage: Option<int>): (w: Window)
    ensures w.limit == PageSize(perPage)
    ensures w.offset == (page.GetOr(1) - 1) * w.limit
  {
    var size := PageSize(perPage);
    Window(size, (page.GetOr(1) - 1) * size)
  }

  /** A missing page is the first page, which starts at offset 0. */
  lemma MissingPageIsFirst(perPage: Option<int>)
    ensures PageWindow(None, perPage) == PageWindow(Some(1), perPage)
    ensures PageWindow(None, perPage).offset == 0
  {
  }

  /** Consecutive pages of the same size are adjacent: page p + 1 starts where page p ends. */
  lemma {:induction false} ConsecutivePagesAdjacent(page: int, perPage: Option<int>)
    ensures PageWindow(Some(page + 1), perPage).offset
         == PageWindow(Some(page), perPage).offset + PageWindow(Some(page), perPage).limit
  {
    var size := PageSize(perPage);
    assert page * size == (page - 1) * size + size;
  }
}
