# Article document model of the Markdown blog

The blog stores each post as an Article document (a mongoose schema in
`models/article.js`). Before mongoose validates a document, a `pre('validate')`
hook derives three paths from the ones the author wrote:

- `slug` from `title`, by slugify with `{ lower: true, strict: true }`;
- `sanitizedHtml` from `markdown`, by marked with `{ breaks: true }` and then DOMPurify;
- `readingTime` from `markdown`, as `Math.ceil(markdown.split(' ').length / 200)`.

Each derivation runs only when its source path is truthy in the JavaScript
sense, so an undefined or empty title or markdown leaves the derived paths as
they were. The schema then requires `title`, `markdown`, `slug` and
`sanitizedHtml`, and gives `author` the default "Anonymous", `published` the
default true, `createdAt` the current time and `tags` an empty list.

The project has three modules:

- `Wrappers` (`wrappers.dfy`): `Option`, where `None` is an undefined path.
- `JsBuiltins` (`js_builtins.dfy`): `String.prototype.split` with a
  one-character separator, `join`, which undoes `split` and is undone by it on
  separator-free pieces, a character count and `Math.ceil`.
- `ArticleModel` (`article.dfy`): the document as the class `Article`, whose
  constructor applies the schema defaults and whose `PreValidate` method
  assigns the derived paths in place. The same document as a value is
  `ArticleState`. The pure function `Hook` specifies the hook on that value,
  and `MissingRequired` is the schema's required check. The lemmas about the
  hook and about validation are stated over these two functions.

slugify, marked and DOMPurify are foreign libraries. They are the three
function fields of `Libraries`, which the hook receives as a parameter. The
model assumes nothing about them except that each one is a function of its
arguments. The clock behind `Date.now` is the `now` parameter of the constructor.

`split(' ')` splits on the space character U+0020 and nothing else. Newlines
and tabs stay inside a piece, and two adjacent spaces give an empty piece. So
the piece count is the number of spaces plus one (`SplitLength`), and the
reading time is not a count of whitespace-separated words. Empty markdown gets
no reading time at all: "" is falsy, so the hook never reaches the formula and
leaves `readingTime` unchanged. Any text that does reach the formula gets at
least one minute.

Mongoose's required check on a string path rejects both an undefined value and
"". So a title that slugify reduces to "" (a title of punctuation only, for
example) fails validation on `slug`.

## Model

| member | source | states |
|---|---|---|
| `JsBuiltins.Count` | models/article.js:61 | the count of a character is its multiplicity in the string |
| `JsBuiltins.Split` | models/article.js:61 | `split` with a one-character separator gives at least one piece, and no piece contains the separator |
| `JsBuiltins.JoinSplit` | models/article.js:61 | joining the pieces of `split` with the separator gives back the original string, so nothing is lost or reordered |
| `JsBuiltins.SplitJoin` | models/article.js:61 | separator-free pieces joined with the separator split back into the same pieces, so `split` and `join` are inverse on such pieces |
| `JsBuiltins.SplitLength` | models/article.js:61 | `s.split(sep).length` is the number of separators in `s` plus one |
| `JsBuiltins.SplitWithoutSeparator` | models/article.js:61 | a string without the separator splits into itself alone |
| `JsBuiltins.SplitExamples` | models/article.js:61 | "one\ntwo" is one piece, "a  b" is three pieces with an empty middle one, and "" is the single piece "" |
| `JsBuiltins.Ceil` | models/article.js:61 | `Math.ceil` gives the integer r with r - 1 < x <= r |
| `ArticleModel.ReadingTime` | models/article.js:61 | the reading time is at least 1, and is the least r with (spaces + 1) <= 200 * r |
| `ArticleModel.ReadingTimeExamples` | models/article.js:61 | 199 spaces (200 pieces) give 1 minute and 200 spaces (201 pieces) give 2 |
| `ArticleModel.ReadingTimeMonotone` | models/article.js:61 | more spaces never give a smaller reading time |
| `ArticleModel.ReadingTimeWithoutSpaces` | models/article.js:61 | text without a space, newlines and tabs included, reads in 1 minute |
| `ArticleModel.Defaults` | models/article.js:8-53 | on construction a missing `author` becomes "Anonymous", `published` true, `createdAt` the given time and `tags` empty; every given path is kept |
| `ArticleModel.Hook` | models/article.js:55-64 | the hook changes only `slug`, `sanitizedHtml` and `readingTime`, and any reading time it assigns is at least 1 |
| `ArticleModel.HookSlug` | models/article.js:56-58 | a truthy title sets `slug` to slugify(title, {lower, strict}); otherwise `slug` keeps its value |
| `ArticleModel.HookMarkdown` | models/article.js:59-62 | a truthy markdown sets `sanitizedHtml` to sanitize(parse(markdown, {breaks})) and `readingTime` to the formula, which is at least 1; otherwise both keep their values |
| `ArticleModel.HookIdempotent` | models/article.js:55-64 | running the hook twice gives the same document as running it once |
| `ArticleModel.HookDependsOnSources` | models/article.js:55-64 | the derived paths depend only on `title` and `markdown`, not on the rest of the document |
| `ArticleModel.MissingRequired` | models/article.js:9-32 | a required path (`title`, `markdown`, `slug`, `sanitizedHtml`) is reported exactly when it is undefined or "" |
| `ArticleModel.PassesValidationIff` | models/article.js:9-32 | validation succeeds exactly when all four required paths are present |
| `ArticleModel.ValidationAfterHook` | models/article.js:9-32 | after the hook, validation succeeds exactly when title and markdown are non-empty and slugify and the sanitizer give non-empty strings |
| `ArticleModel.EmptySlugFails` | models/article.js:24-28 | a title that slugify reduces to "" fails validation on `slug` |
| `ArticleModel.NewArticleWithoutTitleFails` | models/article.js:9-12 | a new document with an undefined or empty title and no slug of its own fails on both `title` and `slug`, because the hook never sets the slug |
| `ArticleModel.EmptyArticleFails` | models/article.js:8-64 | `new Article()` with nothing given fails on all four required paths |
| `ArticleModel.Article.constructor` | models/article.js:20-52 | a new document holds the given paths plus the schema defaults |
| `ArticleModel.Article.PreValidate` | models/article.js:55-64 | the hook assigns `slug`, `sanitizedHtml` and `readingTime` in place under the truthiness conditions, leaves every other path as it was, and agrees with `Hook` |
| `ArticleModel.Article.Validate` | models/article.js:8-64 | validation runs the hook and then reports the missing required paths; the result is empty exactly under the conditions of `ValidationAfterHook` |

## Left out

- The internals of slugify, marked and DOMPurify (and the JSDOM window it is bound to) are foreign libraries. They are opaque function parameters. So the model proves nothing about the slug's characters or about script markup in the HTML.
- The uniqueness of `slug` is enforced by the database's unique index, not by code in the repository. A duplicate slug is not modelled.
- `Date.now` is the `now` parameter. Registering the model with mongoose and choosing the collection name from an environment variable have no logic to model.
- Mongoose's type casting is not modelled, so every path already holds a value of its schema type. The check on `tags` elements and the cast of a comma-separated tags string also happen elsewhere.
- `ArticleModel.ReadingTime`: the division `length / 200` is modelled as exact real division, not IEEE double arithmetic. `Math.ceil` of the double quotient and of the exact quotient agree for every piece count below 2^53.
- The `next()` continuation and mongoose's save and validation pipeline are not modelled. `Validate` stands for the part of validation that this schema defines: the hook followed by the required checks.
- The HTTP server, sessions, login check, mail relay and the article listing query belong to the web layer and the database library, not to the document model.
