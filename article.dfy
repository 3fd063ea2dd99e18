/**
 * The Article document of the blog: its schema (required paths and defaults)
 * and the `pre('validate')` hook that derives `slug`, `sanitizedHtml` and
 * `readingTime` before every validation.
 *
 * A path that is `undefined` on the document is `None`. The three libraries
 * the hook calls (slugify, marked, DOMPurify) are not modelled: they are
 * passed in as deterministic functions.
 */
module ArticleModel {
  import opened Wrappers
  import opened JsBuiltins

  /** Words per minute in the reading-time estimate. */
  const WORDS_PER_MINUTE: nat := 200

  /** The schema default of `author`. */
  const DEFAULT_AUTHOR: string := "Anonymous"

  /** The option object the hook passes to slugify. */
  datatype SlugifyOptions = SlugifyOptions(lower: bool, strict: bool)

  /** The option object the hook passes to marked. */
  datatype MarkedOptions = MarkedOptions(breaks: bool)

  const HOOK_SLUGIFY_OPTIONS := SlugifyOptions(lower := true, strict := true)
  const HOOK_MARKED_OPTIONS := MarkedOptions(breaks := true)

  /** The foreign libraries, each a deterministic function of its arguments. */
  datatype Libraries = Libraries(
    slugify: (string, SlugifyOptions) -> string,
    parse: (string, MarkedOptions) -> string,
    sanitize: string -> string)

  /** The value of every path of an Article document; `createdAt` is in milliseconds. */
  datatype ArticleState = ArticleState(
    title: Option<string>,
    description: Option<string>,
    markdown: Option<string>,
    createdAt: int,
    slug: Option<string>,
    sanitizedHtml: Option<string>,
    author: string,
    tags: seq<string>,
    category: Option<string>,
    featuredImage: Option<string>,
    readingTime: Option<int>,
    published: bool)

  /** What a caller hands to `new Article(...)`: any path may be left out. */
  datatype ArticleInput = ArticleInput(
    title: Option<string>,
    description: Option<string>,
    markdown: Option<string>,
    createdAt: Option<int>,
    slug: Option<string>,
    sanitizedHtml: Option<string>,
    author: Option<string>,
    tags: Option<seq<string>>,
    category: Option<string>,
    featuredImage: Option<string>,
    readingTime: Option<int>,
    published: Option<bool>)

  /** `new Article()` with no paths given. */
  const EMPTY_INPUT := ArticleInput(None, None, None, None, None, None, None, None, None, None, None, None)

  /** JavaScript truthiness of a string path: `undefined` and "" are false. */
  predicate Truthy(s: Option<string>) {
    s.Some? && |s.value| > 0
  }

  /** The document after construction: given paths are kept, the others take the schema defaults. */
  function Defaults(input: ArticleInput, now: int): (a: ArticleState)
    ensures input.author.None? ==> a.author == DEFAULT_AUTHOR
    ensures input.published.None? ==> a.published
    ensures input.createdAt.None? ==> a.createdAt == now
    ensures input.tags.None? ==> a.tags == []
    ensures input.author.Some? ==> a.author == input.author.value
    ensures input.published.Some? ==> a.published == input.published.value
    ensures input.createdAt.Some? ==> a.createdAt == input.createdAt.value
    ensures input.tags.Some? ==> a.tags == input.tags.value
    ensures a.title == input.title && a.description == input.description && a.markdown == input.markdown
    ensures a.slug == input.slug && a.sanitizedHtml == input.sanitizedHtml
    ensures a.category == input.category && a.featuredImage == input.featuredImage
    ensures a.readingTime == input.readingTime
  {
    ArticleState(
      input.title, input.description, input.markdown,
      input.createdAt.GetOr(now),
      input.slug, input.sanitizedHtml,
      input.author.GetOr(DEFAULT_AUTHOR),
      input.tags.GetOr([]),
      input.category, input.featuredImage, input.readingTime,
      input.published.GetOr(true))
  }

  /**
   * `Math.ceil(markdown.split(' ').length / 200)`: the number of started
   * blocks of 200 space-separated pieces.
   */
  function ReadingTime(markdown: string): (minutes: int)
    ensures minutes >= 1
    ensures WORDS_PER_MINUTE * (minutes - 1) < Count(markdown, ' ') + 1 <= WORDS_PER_MINUTE * minutes
  {
    SplitLength(markdown, ' ');
    var pieces := |Split(markdown, ' ')|;
    var r := Ceil(pieces as real / WORDS_PER_MINUTE as real);
    assert (r - 1) as real * 200.0 < pieces as real <= r as real * 200.0;
    r
  }

  /** The effect of the `pre('validate')` hook on a document. */
  function Hook(a: ArticleState, libs: Libraries): (b: ArticleState)
    ensures b == a.(slug := b.slug, sanitizedHtml := b.sanitizedHtml, readingTime := b.readingTime)
    ensures b.readingTime != a.readingTime ==> b.readingTime.Some? && b.readingTime.value >= 1
  {
    var slug := if Truthy(a.title) then Some(libs.slugify(a.title.value, HOOK_SLUGIFY_OPTIONS)) else a.slug;
    if Truthy(a.markdown) then
      a.(slug := slug,
         sanitizedHtml := Some(libs.sanitize(libs.parse(a.markdown.value, HOOK_MARKED_OPTIONS))),
         readingTime := Some(ReadingTime(a.markdown.value)))
    else
      a.(slug := slug)
  }

  /** The paths the schema marks `required`. */
  datatype RequiredPath = TitlePath | MarkdownPath | SlugPath | SanitizedHtmlPath

  /** The value a required path holds. */
  function RequiredValue(a: ArticleState, p: RequiredPath): (v: Option<string>) {
    match p
    case TitlePath => a.title
    case MarkdownPath => a.markdown
    case SlugPath => a.slug
    case SanitizedHtmlPath => a.sanitizedHtml
  }

  /**
   * Mongoose's required check on a string path: the path is set and not "".
   * On strings it coincides with JavaScript truthiness.
   */
  predicate Present(s: Option<string>) {
    Truthy(s)
  }

  /** The required paths that fail their check, as a validation error reports them. */
  function MissingRequired(a: ArticleState): (missing: set<RequiredPath>)
    ensures forall p :: p in missing <==> !Present(RequiredValue(a, p))
  {
    (if Present(a.title) then {} else {TitlePath})
    + (if Present(a.markdown) then {} else {MarkdownPath})
    + (if Present(a.slug) then {} else {SlugPath})
    + (if Present(a.sanitizedHtml) then {} else {SanitizedHtmlPath})
  }

  /** Validation succeeds: no required path is missing. */
  predicate PassesValidation(a: ArticleState) {
    MissingRequired(a) == {}
  }

  /** Validation succeeds exactly when all four required paths are present. */
  lemma PassesValidationIff(a: ArticleState)
    ensures PassesValidation(a) <==>
      Present(a.title) && Present(a.markdown) && Present(a.slug) && Present(a.sanitizedHtml)
  {
  }

  /** A non-empty title sets the slug from the title; otherwise the slug is kept. */
  lemma HookSlug(a: ArticleState, libs: Libraries)
    ensures Truthy(a.title) ==> Hook(a, libs).slug == Some(libs.slugify(a.title.value, HOOK_SLUGIFY_OPTIONS))
    ensures !Truthy(a.title) ==> Hook(a, libs).slug == a.slug
  {
  }

  /**
   * A non-empty markdown sets the sanitized HTML and a reading time of at
   * least one minute; otherwise both are kept.
   */
  lemma HookMarkdown(a: ArticleState, libs: Libraries)
    ensures Truthy(a.markdown) ==>
      && Hook(a, libs).sanitizedHtml == Some(libs.sanitize(libs.parse(a.markdown.value, HOOK_MARKED_OPTIONS)))
      && Hook(a, libs).readingTime == Some(ReadingTime(a.markdown.value))
      && Hook(a, libs).readingTime.value >= 1
    ensures !Truthy(a.markdown) ==>
      Hook(a, libs).sanitizedHtml == a.sanitizedHtml && Hook(a, libs).readingTime == a.readingTime
  {
  }

  /** Running the hook a second time changes nothing. */
  lemma HookIdempotent(a: ArticleState, libs: Libraries)
    ensures Hook(Hook(a, libs), libs) == Hook(a, libs)
  {
  }

  /**
   * What the hook writes depends only on `title` and `markdown`: two
   * documents with the same non-empty title get the same slug, and two with
   * the same non-empty markdown get the same HTML and reading time.
   */
  lemma HookDependsOnSources(a: ArticleState, a': ArticleState, libs: Libraries)
    ensures Truthy(a.title) && a.title == a'.title ==> Hook(a, libs).slug == Hook(a', libs).slug
    ensures Truthy(a.markdown) && a.markdown == a'.markdown ==>
      Hook(a, libs).sanitizedHtml == Hook(a', libs).sanitizedHtml
      && Hook(a, libs).readingTime == Hook(a', libs).readingTime
  {
  }

  /**
   * After the hook, validation succeeds exactly when title and markdown are
   * non-empty and slugify and the sanitizer give non-empty strings; a slug
   * or HTML set by the caller never rescues a document.
   */
  lemma ValidationAfterHook(a: ArticleState, libs: Libraries)
    ensures PassesValidation(Hook(a, libs)) <==>
      && Truthy(a.title) && Truthy(a.markdown)
      && libs.slugify(a.title.value, HOOK_SLUGIFY_OPTIONS) != ""
      && libs.sanitize(libs.parse(a.markdown.value, HOOK_MARKED_OPTIONS)) != ""
  {
  }

  /** A title that slugify reduces to "" (only punctuation, say) fails on `slug`. */
  lemma EmptySlugFails(a: ArticleState, libs: Libraries)
    requires Truthy(a.title) && libs.slugify(a.title.value, HOOK_SLUGIFY_OPTIONS) == ""
    ensures SlugPath in MissingRequired(Hook(a, libs))
  {
  }

  /**
   * A new document whose title is missing or "" and whose slug is not given
   * fails validation on both `title` and `slug`: the hook never sets the slug.
   */
  lemma NewArticleWithoutTitleFails(input: ArticleInput, now: int, libs: Libraries)
    requires !Truthy(input.title) && !Present(input.slug)
    ensures TitlePath in MissingRequired(Hook(Defaults(input, now), libs))
    ensures SlugPath in MissingRequired(Hook(Defaults(input, now), libs))
  {
  }

  /** `new Article()` with nothing given fails on all four required paths. */
  lemma EmptyArticleFails(now: int, libs: Libraries)
    ensures MissingRequired(Hook(Defaults(EMPTY_INPUT, now), libs))
      == {TitlePath, MarkdownPath, SlugPath, SanitizedHtmlPath}
  {
  }

  /** Concrete reading times: 199 spaces (200 pieces) is one minute, 200 spaces is two. */
  lemma ReadingTimeExamples(m1: string, m2: string)
    requires Count(m1, ' ') == 199 && Count(m2, ' ') == 200
    ensures ReadingTime(m1) == 1 && ReadingTime(m2) == 2
  {
  }

  /** More spaces never give a shorter reading time. */
  lemma ReadingTimeMonotone(m1: string, m2: string)
    requires Count(m1, ' ') <= Count(m2, ' ')
    ensures ReadingTime(m1) <= ReadingTime(m2)
  {
  }

  /** Only spaces count: text with no space, newlines and tabs included, reads in one minute. */
  lemma ReadingTimeWithoutSpaces(m: string)
    requires ' ' !in m
    ensures ReadingTime(m) == 1
  {
    SplitWithoutSeparator(m, ' ');
  }

  /** An Article document, whose paths the hook assigns in place. */
  class Article {
    var title: Option<string>
    var description: Option<string>
    var markdown: Option<string>
    var createdAt: int
    var slug: Option<string>
    var sanitizedHtml: Option<string>
    var author: string
    var tags: seq<string>
    var category: Option<string>
    var featuredImage: Option<string>
    var readingTime: Option<int>
    var published: bool

    /** The values of all paths. */
    function Snapshot(): (s: ArticleState)
      reads this
    {
      ArticleState(title, description, markdown, createdAt, slug, sanitizedHtml,
                   author, tags, category, featuredImage, readingTime, published)
    }

    /** `new Article(input)` at time `now`: the schema defaults fill the paths not given. */
    constructor (input: ArticleInput, now: int)
      ensures Snapshot() == Defaults(input, now)
    {
      title := input.title;
      description := input.description;
      markdown := input.markdown;
      createdAt := input.createdAt.GetOr(now);
      slug := input.slug;
      sanitizedHtml := input.sanitizedHtml;
      author := input.author.GetOr(DEFAULT_AUTHOR);
      tags := input.tags.GetOr([]);
      category := input.category;
      featuredImage := input.featuredImage;
      readingTime := input.readingTime;
      published := input.published.GetOr(true);
    }

    /** The `pre('validate')` hook: derives slug, HTML and reading time in place. */
    method PreValidate(libs: Libraries)
      modifies this
      ensures Truthy(old(title)) ==> slug == Some(libs.slugify(old(title).value, HOOK_SLUGIFY_OPTIONS))
      ensures !Truthy(old(title)) ==> slug == old(slug)
      ensures Truthy(old(markdown)) ==>
        && sanitizedHtml == Some(libs.sanitize(libs.parse(old(markdown).value, HOOK_MARKED_OPTIONS)))
        && readingTime == Some(ReadingTime(old(markdown).value))
      ensures !Truthy(old(markdown)) ==> sanitizedHtml == old(sanitizedHtml) && readingTime == old(readingTime)
      ensures title == old(title) && description == old(description) && markdown == old(markdown)
      ensures createdAt == old(createdAt) && author == old(author) && tags == old(tags)
      ensures category == old(category) && featuredImage == old(featuredImage) && published == old(published)
      ensures Snapshot() == Hook(old(Snapshot()), libs)
    {
      if Truthy(title) {
        slug := Some(libs.slugify(title.value, HOOK_SLUGIFY_OPTIONS));
      }
      if Truthy(markdown) {
        sanitizedHtml := Some(libs.sanitize(libs.parse(markdown.value, HOOK_MARKED_OPTIONS)));
        readingTime := Some(ReadingTime(markdown.value));
      }
    }

    /**
     * `validate()`: runs the hook, then reports the required paths that
     * fail. The hook's assignments stay on the document even when
     * validation fails.
     */
    method Validate(libs: Libraries) returns (missing: set<RequiredPath>)
      modifies this
      ensures Snapshot() == Hook(old(Snapshot()), libs)
      ensures missing == MissingRequired(Snapshot())
      ensures missing == {} <==>
        && Truthy(old(title)) && Truthy(old(markdown))
        && libs.slugify(old(title).value, HOOK_SLUGIFY_OPTIONS) != ""
        && libs.sanitize(libs.parse(old(markdown).value, HOOK_MARKED_OPTIONS)) != ""
    {
      ValidationAfterHook(Snapshot(), libs);
      PreValidate(libs);
      missing := MissingRequired(Snapshot());
    }
  }
}
