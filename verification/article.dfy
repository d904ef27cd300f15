/** The Eloquent `Article` model: the attribute array the mappers build, the
    persisted row (only the `$fillable` attributes), and the `array` cast on
    `tags`. */
module ArticleModel {
  import opened Wrappers
  import Json

  /** A point in time. Carbon values and the stored `published_at` column are
      only ever compared by order, so an integer stands for them. */
  type Timestamp = int

  /** The value array a mapper passes to `updateOrCreate` besides the url key.
      `language` is passed by the two fetch mappers but is not fillable. */
  datatype Attributes = Attributes(
    title: Option<string>,
    author: string,
    description: Option<string>,
    source: string,
    category: string,
    tags: Json.Json,
    language: Option<string>,
    publishedAt: Timestamp)

  /** A row of the articles table: exactly the mass-assignable attributes.
      `tagsColumn` holds the JSON text the `array` cast wrote. */
  datatype Article = Article(
    title: Option<string>,
    author: string,
    description: Option<string>,
    source: string,
    category: string,
    tagsColumn: string,
    url: string,
    publishedAt: Timestamp)
  {
    /** The `tags` attribute as read back through the `array` cast. */
    function Tags(): Option<Json.Json> {
      Json.Decode(tagsColumn)
    }
  }

  /** Two attribute arrays that agree on every attribute in `$fillable`
      (title, author, description, source, category, tags, published_at; the
      url is the key). */
  predicate SameFillable(a: Attributes, b: Attributes) {
    && a.title == b.title
    && a.author == b.author
    && a.description == b.description
    && a.source == b.source
    && a.category == b.category
    && a.tags == b.tags
    && a.publishedAt == b.publishedAt
  }

  /** Mass assignment of `['url' => $url] + $attributes`: non-fillable keys are
      dropped and `tags` goes through the `array` cast. */
  function Fill(url: string, a: Attributes): (r: Article)
    ensures r.url == url
    ensures r.Tags() == Some(a.tags)
  {
    Json.RoundTrip(a.tags);
    Article(a.title, a.author, a.description, a.source, a.category, Json.Encode(a.tags), url, a.publishedAt)
  }

  /** The stored row depends on the fillable attributes and on nothing else:
      two attribute arrays give the same row exactly when they agree on every
      fillable attribute. In particular `language` never reaches the row. */
  lemma FillKeepsExactlyFillable(url: string, a: Attributes, b: Attributes)
    ensures Fill(url, a) == Fill(url, b) <==> SameFillable(a, b)
  {
    if Fill(url, a) == Fill(url, b) {
      Json.EncodeInjective(a.tags, b.tags);
    }
  }
}
