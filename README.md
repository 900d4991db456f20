# Songmash: a verified model of the Elo core

Songmash is a single-page app. It shows two songs from a fixed catalogue
and the user picks one. Each click updates one Elo ranking out of twenty:
there is one per pair of *segment* (POP, ROCK, FIESTA, NOST, GENZ) and
*context* (ICON, BAIL, HIST, PLAY). Every vote is appended to a log that
can be exported as CSV. This project models the app's core in Dafny and
proves what the code promises:

- `Catalog` (catalog.dfy): the catalogue of ten songs, the segment and
  context keys, the constants `RATING_INICIAL = 1000` and `K = 32`, and the
  bucket key `SEG__CTX`. It proves the key is injective over the segment
  keys and that the grid of bucket keys has exactly 5 × 4 = 20 members.
- `Buckets` (bucket.dfy): a bucket is a JavaScript object from song to
  rating, updated in place. It is a class with the map of ratings and the
  order in which keys were first inserted. `Object.entries` lists keys in
  that order only when they are not array indices (such as `"0"` or
  `"42"`), which JavaScript lists first, in ascending numeric order.
  `Catalog.SongsAreNotIndices` proves that no song title is such a key.
- `Elo` (elo.dfy): `expectedScore` and `updateElo`. `Math.pow(10, ·)` is a
  function parameter. It is constrained only by the facts the proofs need:
  it is positive, `pow(x) * pow(-x) == 1`, and it is strictly increasing.
  The model proves that the update is zero-sum, that the winner gains and
  the loser loses, and that two equal ratings move by ±16.
- `Pairing` (pairing.dfy): `randomPair`. The calls to `Math.random()` are
  a finite stream of draws in [0, 1).
- `Ranking` (ranking.dfy): `topN`. `Array.prototype.sort` is stable, so
  the model sorts with a stable insertion sort. It proves that this sort is
  the only descending arrangement that keeps the order of equal ratings.
- `Store` (store.dfy): the app state (`defaultState`, `vote`, the reset
  button and the ranking view). It is a class holding the twenty buckets
  and the vote log.
- `Export` (export.dfy): the CSV built by the export button. It proves the
  CSV splits back into a header line plus one line per vote, and that each
  line splits into the six quoted fields.

The timestamp, the confirmation dialog's answer and the random draws are
parameters. The selected segment and context and the duel's two songs are
parameters too.

Cases the code does not guard, and what the model does with them:

- `updateElo` does not reject a winner other than `"A"`/`"B"`; it scores
  both sides 0. `Elo.EloZeroSum` and `Elo.EloWinnerGains` state this case.
- `updateElo` does not fail on a song missing from the bucket. JavaScript
  would compute with `undefined` and produce `NaN`. The model requires
  both songs to be present; see "Left out".
- `randomPair` has no guard for a catalogue of fewer than two songs.
- The CSV header is the key order of the first vote record
  (`ts,segmento,contexto,A,B,ganador`). Fields are wrapped in quotes with
  no escaping.

## Model

| member | source | states |
|---|---|---|
| Catalog.CatalogFacts | app.js:5-31 | the song titles, segment keys and context keys are pairwise distinct, and no segment key contains `_` |
| Catalog.BucketKeyInjective | app.js:93 | for segments without `_`, `SEG__CTX` keys are equal exactly when both segment and context are equal |
| Catalog.GridSize | app.js:43-45 | the keys built from distinct segments and contexts number segments × contexts |
| Catalog.GridKeysCount | app.js:41-49 | `defaultState` builds exactly 5 × 4 = 20 bucket keys |
| Catalog.GridKeyOf | app.js:93 | every segment and context of the app names a key of the grid, and no other pair names the same key |
| Catalog.SongsAreNotIndices | app.js:5-16 | no song title is an array-index key, so a bucket lists its songs in insertion order |
| Buckets.Bucket.constructor | app.js:46 | a new bucket `{}` has no ratings and no keys |
| Buckets.Bucket.Set | app.js:47 | assigning `bucket[key] = r` sets that rating, keeps the others, and appends the key to the key order only when it is new |
| Buckets.KeyCount | app.js:96 | a bucket has as many ratings as its key order has entries |
| Elo.PowZero | app.js:71 | `10^0 = 1` follows from the facts assumed of `Math.pow(10, ·)` |
| Elo.ExpectedScore | app.js:70-72 | the expected score lies strictly between 0 and 1 |
| Elo.ExpectedScoreSymmetric | app.js:70-72 | the two players' expected scores add up to 1 |
| Elo.ExpectedScoreEven | app.js:70-72 | the expected score between equal ratings is 0.5 |
| Elo.ExpectedScoreFavours | app.js:70-72 | the expected score is above 0.5 exactly when A is rated higher, and below 0.5 exactly when A is rated lower |
| Elo.EloZeroSum | app.js:74-82 | the sum of the two ratings is unchanged exactly when the winner is "A" or "B"; for any other value it drops by K |
| Elo.EloWinnerGains | app.js:74-82 | the winning side's rating rises and the other side's falls; with any other winner value both fall |
| Elo.EloEqualRatings | app.js:74-82 | between equal ratings the winner gains 16 and the loser loses 16 |
| Elo.EloFirstVote | app.js:74-82 | the first vote between two songs at 1000 leaves them at 1016 and 984 |
| Elo.EloSideSymmetric | app.js:74-82 | A winning against B moves the ratings as B winning against A does, with the sides swapped |
| Elo.UpdateElo | app.js:74-82 | the bucket's ratings for `a` and `b` become the Elo update of their old values; every other rating and the key set and key order are unchanged; the total is unchanged when `a != b` and the winner is A or B |
| Pairing.Pick | app.js:85 | `canciones[floor(r * length)]` is a catalogue song for every `r` in [0, 1) |
| Pairing.RandomPair | app.js:84-91 | a pair returned is two distinct catalogue songs: A from the first draw, B from the first later draw that differs, every draw in between giving A again; no pair is returned exactly when no later draw differs from the first |
| Ranking.Insert | app.js:97 | inserting into the sorted list adds exactly that entry (as a multiset) |
| Ranking.InsertDescending | app.js:97 | inserting into a descending list keeps it descending |
| Ranking.SortDesc | app.js:97 | the sort is a permutation of its input in descending order of rating |
| Ranking.InsertStable | app.js:97 | the inserted entry, which came first in the input, lands before every entry with an equal rating, and those keep their order |
| Ranking.SortStable | app.js:97 | the sort keeps entries with equal ratings in their input order |
| Ranking.StableSortUnique | app.js:97 | two descending lists that list each rating's entries in the same order are equal |
| Ranking.SortDescCharacterized | app.js:97 | any descending list that keeps the input order of equal ratings is the sort's result |
| Ranking.SortDistinct | app.js:97 | sorting entries with distinct items keeps them distinct |
| Ranking.EntriesFacts | app.js:96 | `Object.entries` gives one entry per key, with distinct items, each carrying its rating |
| Ranking.SortFacts | app.js:97 | sorting keeps the length, the members, distinct items and the order of equal ratings |
| Ranking.WithRatingPrefix | app.js:98 | a prefix keeps a prefix of each rating's entries |
| Ranking.SortCovers | app.js:96-97 | every key of the bucket appears in the sorted entries with its rating |
| Ranking.TakeDominates | app.js:98 | in a descending list, each entry `slice(0, n)` keeps is rated at least as high as each entry it drops |
| Ranking.TakeFacts | app.js:98 | `slice(0, n)` has min(n, length) entries, drawn from the list, and keeps descending order, distinctness and the relative order of ties |
| Ranking.TopN | app.js:95-99 | `topN` returns the n highest-rated entries of the bucket: min(n, bucket size) of them, in descending order, each a song of the bucket with its rating, without duplicates, each rated at least as high as every entry left out, with equal ratings in the bucket's key order |
| Ranking.TopNExample | app.js:95-99 | S1:1050, S2:1000, S3:1200 rank as S3, S1, S2 |
| Store.NewDefaultBucket | app.js:46-47 | a fresh bucket rates every catalogue song 1000, with keys in catalogue order |
| Store.DefaultBuckets | app.js:41-49 | builds one fresh, distinct default bucket for each of the 20 bucket keys and no other |
| Store.State.constructor | app.js:41-51 | the default state: the complete grid of default buckets and an empty vote log |
| Store.State.Reset | app.js:183-189 | when confirmed, the state becomes the default state again; otherwise nothing changes |
| Store.LogAppend | app.js:158-176 | appending a record with grid keys, catalogue songs and a winner among them keeps every record of the log of that form |
| Store.State.Vote | app.js:158-176 | the active bucket's A and B ratings take the Elo update; the buckets of every other segment/context pair keep their ratings; exactly one record is appended to the log, with the winner's song (A's when the winner is "A", else B's); the state stays valid |
| Store.State.TopTen | app.js:146-148 | the ranking shown for a segment/context pair lists each of the ten songs exactly once with that bucket's rating, in descending order; it is the stable sort of the catalogue's entries, so ties keep catalogue order |
| Export.Csv | app.js:192-197 | there is no CSV exactly when the vote log is empty |
| Export.IndexOf | app.js:194-197 | finds the first occurrence of the separator, used to read the CSV back into lines and fields |
| Export.Split | app.js:194-197 | splitting text always yields at least one part |
| Export.SplitJoin | app.js:194-197 | splitting a `join(sep)` of parts that do not contain `sep` gives back the parts |
| Export.JoinWithout | app.js:194-197 | a join contains a character only if some part does, or it is the separator |
| Export.HeaderFacts | app.js:193-195 | the header line splits on commas back into `ts`, `segmento`, `contexto`, `A`, `B`, `ganador` |
| Export.HeaderOneLine | app.js:193-195 | the header line contains no newline |
| Export.SongsPlain | app.js:5-16 | no song title contains a newline or a comma |
| Export.KeysPlain | app.js:18-31 | no segment or context key contains a newline or a comma |
| Export.LoggedVotePlain | app.js:166-173 | a record `vote` writes, with a timestamp free of newlines and commas, has no newline or comma in any field |
| Export.LogPlain | app.js:166-173 | every record of such a log has no newline or comma in any field |
| Export.QuotedFieldsAre | app.js:196 | a record's fields are the six values in header order, each wrapped in double quotes |
| Export.RowNoNewline | app.js:196 | a line of a record whose values have no newline contains no newline |
| Export.RowsOneLine | app.js:196 | no line of a log whose values have no newline contains a newline |
| Export.RowFields | app.js:196 | a record line splits on commas into exactly the six quoted values |
| Export.CsvLines | app.js:192-197 | a CSV of N votes whose values have no newline splits into N + 1 lines: the header, then one line per vote in log order |
| Export.CsvHeader | app.js:193-197 | the first line of the CSV splits on commas into the six column names of a vote record |
| Export.CsvLine | app.js:194-197 | line i + 1 of the CSV is the line of vote i |
| Export.CsvWinnerColumn | app.js:192-197 | a data line of a record without commas has six columns, and its `ganador` column equals its `A` or its `B` column |
| Export.LogExport | app.js:158-197 | the CSV of a non-empty log written by `vote` with plain timestamps has one line per vote after the header; each has six columns and its `ganador` column equals its `A` or `B` column |

## Left out

- The DOM is not modelled: the select boxes, buttons and HTML rendering,
  the duel labels, `newDuel`, the label maps of segments and contexts, and
  `toFixed(1)` formatting.
- `loadState` and `saveState` (JSON in `localStorage`, including the
  fallback to the default state on a parse error) are I/O and not modelled.
  The calls to `saveState`, `renderTop` and `newDuel` at the end of `vote`
  and of reset are not modelled either.
- `confirm` is a boolean parameter of reset. The `alert`, the `Blob` and
  the download link of the export are left out; only the CSV text is
  modelled.
- Numbers are reals, not IEEE doubles; rounding is not modelled.
- Elo.ExpectedScore: `Math.pow(10, ·)` is abstract, constrained by
  positivity, `pow(x) * pow(-x) == 1` and strict monotonicity. The model
  does not show that such a function exists.
- Pairing.RandomPair: `Math.random()` is a finite stream of draws. The
  source loops until a different song comes up; the model returns no pair
  when the stream runs out first.
- Elo.UpdateElo: requires both songs to be keys of the bucket. The source
  does not check this; a missing key yields `NaN` ratings and adds the key.
- Store.State.Vote: requires the segment and context to be keys of the
  grid and both songs to be catalogue songs. In the app the select boxes
  and `randomPair` guarantee this, so the source's behaviour for other
  values is not modelled. The timestamp is a parameter for
  `new Date().toISOString()`.
- Ranking.TopN: `n` is a natural number. A negative `n` would make
  `slice(0, n)` count from the end, and that is not modelled.
- Export.CsvLines: the line count holds only for records whose values
  contain no newline. The source does not escape such characters, and the
  model does not state what happens to other text.
- Export.CsvWinnerColumn: the column count also needs the record's values
  to contain no comma. `Export.LogExport` shows that the records `vote`
  writes meet both conditions, given a timestamp without newline or comma
  (as an ISO date is); the timestamp is a parameter.
- Buckets.Bucket.Set: appends a new key at the end of the key order. For a
  key that is an array index JavaScript lists it first instead; that case
  is not modelled, since no song title is such a key.
- Export.Csv: the header is the fixed key order of a vote record. The
  source reads it with `Object.keys` from the first vote, which gives the
  same order for every record `vote` creates.
