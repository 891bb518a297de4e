/**
 * The persisted recommendation settings store
 * (`lib/stores/recommendation-settings.ts`): whether articles of other users'
 * feeds are included, and how recommendations are sorted.
 */
module RecommendationSettings {
  import opened Base
  import ArticleService

  /** `SortOrder`. */
  datatype SortOrder = Recommended | Date {
    /** The string the store holds and the page sends as `sortOrder`. */
    function Name(): string {
      match this
      case Recommended => "recommended"
      case Date => "date"
    }
  }

  /** The two settings sort the recommendations by score and by date respectively. */
  lemma SortOrdersSelectKeys()
    ensures ArticleService.SortKey(Some(Recommended.Name())) == ArticleService.ScoreKey
    ensures ArticleService.SortKey(Some(Date.Name())) == ArticleService.DateKey
  {
  }

  class Settings {
    var includeExternalFeeds: bool
    var sortOrder: SortOrder

    /** Lines 16-17: the initial state. */
    constructor()
      ensures !includeExternalFeeds && sortOrder == Recommended
    {
      includeExternalFeeds := false;
      sortOrder := Recommended;
    }

    /** Lines 18-20. */
    method ToggleExternalFeeds()
      modifies this
      ensures includeExternalFeeds == !old(includeExternalFeeds)
      ensures sortOrder == old(sortOrder)
    {
      includeExternalFeeds := !includeExternalFeeds;
    }

    /** Line 21. */
    method SetSortOrder(order: SortOrder)
      modifies this
      ensures sortOrder == order
      ensures includeExternalFeeds == old(includeExternalFeeds)
    {
      sortOrder := order;
    }
  }

  /** Lines 18-20: toggling twice gives back both settings as they were. */
  method ToggleTwiceRestores(s: Settings)
    modifies s
    ensures s.includeExternalFeeds == old(s.includeExternalFeeds)
    ensures s.sortOrder == old(s.sortOrder)
  {
    s.ToggleExternalFeeds();
    s.ToggleExternalFeeds();
  }

  /** Line 21: setting the order twice is setting it once, and the flag stays. */
  method SetSortOrderIdempotent(s: Settings, order: SortOrder)
    modifies s
    ensures s.sortOrder == order
    ensures s.includeExternalFeeds == old(s.includeExternalFeeds)
  {
    s.SetSortOrder(order);
    s.SetSortOrder(order);
  }
}
