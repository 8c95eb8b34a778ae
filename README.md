# node-image-mailer: the batching pipeline of index.js

node-image-mailer mails the images of a directory. Each mail has a cap on
the total size of its attachments. This project models the in-memory part of
`main` in `index.js` and proves properties of it. That part has four pieces:

- **The image filter** (`index.js:41`, `index.js:58`). A name is kept when it
  ends, ignoring case, in `.gif`, `.jpg`, `.jpeg`, `.tif`, `.tiff`, `.png`,
  `.webp` or `.bmp`.
- **The partition loop** (`index.js:52-93`). It is one pass over the listing,
  with a running batch, a running size and a mail counter.
  - A kept file that fits joins the running batch and gets a content id.
  - A kept file that does not fit pushes the running batch as a mail, even
    an empty one, and is dropped itself.
  - At the end the running batch is pushed if it holds a file.
- **The presentation loop** (`index.js:95-104`). Every mail gets the subject
  `"<subject> (<count>/<N>)"`. Every attachment gets a newly drawn content id,
  replacing the one drawn during partitioning. The HTML body is one fragment
  `name:<br><img src="cid:ID"><br><br>` per attachment, in order.
- **`formatNumber`** (`index.js:133-135`). It writes a size in decimal, with a
  `.` between groups of three digits counted from the right, so there is no
  `.` in front of the first group.

`index.js` has no exception for a single file larger than `maxSize`: such a
file overflows even an empty batch and is dropped. The file that overflows a
batch never starts the next batch; it is dropped too. Sizes are written as
byte counts, without units. The model follows `index.js` in all three.

Modules, one per file:

| file | module | what it holds |
|---|---|---|
| `wrappers.dfy` | `Wrappers` | `Option`, for the subject and body a mail gets only when presented |
| `mails.dfy` | `Mails` | the records: a listing entry, an attachment, a mail; sums and concatenations |
| `image_filter.dfy` | `ImageFilter` | the filter pattern, and its reading as a test of the extension |
| `decimal.dfy` | `Decimal` | decimal digits of a natural number, as `toString` writes them |
| `number_format.dfy` | `NumberFormat` | `formatNumber` and the shape of its output |
| `batching.dfy` | `Batching` | the partition described without the loop: one decision per file, batches split at the closes |
| `partitioner.dfy` | `Partitioner` | the partition loop as a method, proved against `Batching` |
| `html_body.dfy` | `HtmlBody` | the HTML body, and how often a content id occurs in it |
| `presenter.dfy` | `Presenter` | the presentation loop, a method updating an array of mails in place |
| `mailer.dfy` | `Mailer` | the whole pipeline, and what the mails handed to `sendMails` look like |

The content-id generator `uuidv4` is a parameter `uuid: nat -> string`, and
`uuid(i)` is the id of the i-th call. The partition draws `uuid(0)` up to
`uuid(D - 1)`, one per kept file, so `D` ids in all. The presentation then
draws from `uuid(D)` on.

## Model

| member | source | states |
|---|---|---|
| ImageFilter.EndsWithIgnoringCaseIff | index.js:41 | the case-insensitive end match holds exactly when the name's last characters, with ASCII letters lower-cased, are the suffix |
| ImageFilter.EndsWithAnyIff | index.js:41 | the alternation matches exactly when one of its alternatives matches at the end of the name |
| ImageFilter.ExtensionAfterLastDot | index.js:41 | the extension of `p + "." + x`, for an `x` without a dot, is `x` |
| ImageFilter.ExtensionIsSuffix | index.js:41 | an extension is the dot-free text that follows the name's last `.` |
| ImageFilter.EndsWithDotExtension | index.js:41 | ending in `.` + e, ignoring case, is having e, ignoring case, as extension |
| ImageFilter.FilterIsExtensionTest | index.js:58 | the filter accepts a name exactly when its extension, lower-cased, is gif, jpg, jpeg, tif, tiff, png, webp or bmp |
| Decimal.Digits | index.js:96 | the decimal text of a number is non-empty, all digits, and has no leading zero |
| Decimal.ValueOfDigits | index.js:134 | reading the decimal text back gives the number |
| Decimal.DigitsInjective | index.js:96 | different numbers have different decimal texts |
| Decimal.DigitsLength | index.js:134 | a number has at most k digits exactly when it is below 10^k |
| NumberFormat.StripGroup | index.js:134 | deleting the separators the replacement inserts gives back the digits |
| NumberFormat.GroupShape | index.js:134 | the pieces between the separators: how many there are, a first one of 1 to 3 digits, the others of 3 |
| NumberFormat.FormatNumberDigits | index.js:133-135 | removing every `.` from formatNumber(n) gives the digits of n, which read back as n |
| NumberFormat.FormatNumberGroups | index.js:133-135 | the first group has 1 to 3 digits, every later group exactly 3, and there are (digits - 1) / 3 + 1 groups |
| NumberFormat.FormatNumberHasDot | index.js:133-135 | formatNumber(n) contains a `.` exactly when n >= 1000 |
| Batching.StepAt | index.js:56-81 | the i-th file's fate (skipped, closing, taken) depends only on the batch open when it arrives |
| Batching.SplitWithinCap | index.js:61-79 | no batch, closed or running, ever holds more than maxSize bytes |
| Batching.SplitFlatten | index.js:56-82 | the batches read one after another are the taken files in order |
| Batching.SplitCount | index.js:61-70 | there is one batch more than there are overflow events |
| Batching.BatchesWithinCap | index.js:61-90 | every mail's batch holds at most maxSize bytes |
| Batching.BatchesFlatten | index.js:56-93 | the mails' batches read one after another are the taken files, in listing order |
| Batching.BatchesCount | index.js:61-93 | the number of mails is the number of overflow events, plus one when the last batch holds a file |
| Batching.KeptExactly | index.js:58-80 | with distinct names, a file is in some mail exactly when it is an image and fits into the batch open when it arrives |
| Batching.OverflowClosesBatch | index.js:61-70 | an image that overflows the running batch closes it, even an empty one, and is itself not kept |
| Batching.NoImagesNoBatches | index.js:56-93 | a listing without images, an empty one in particular, gives no mail |
| Batching.TakenAt | index.js:71-79 | a taken file is the listing's file at the position of its decision |
| Batching.TakenDistinct | index.js:56-82 | with distinct names, no file is taken twice |
| Batching.SentOnce | index.js:56-93 | with distinct names, the mails' attachments read one after another never repeat |
| Batching.InOneBatch | index.js:56-93 | with distinct names, a kept file is in one mail only |
| Batching.BatchedFromListing | index.js:56-82 | every file in a mail comes from the listing |
| Partitioner.MadeAllEntries | index.js:72-78 | the attachments made for a batch carry its files' names and sizes, in order |
| Partitioner.MadeAllAt | index.js:72-78 | the j-th attachment is file j with the id of draw start + j and its size text |
| Partitioner.MailsForLength | index.js:52-93 | one mail per batch |
| Partitioner.MailsForAt | index.js:62-67 | mail k holds batch k, numbered k + 1, its ids following those of the batches before it |
| Partitioner.MailsForAttachments | index.js:72-78 | the attachments of all the mails are the batched files with ids 0, 1, 2, ... in order |
| Partitioner.MailsForFields | index.js:62-67 | mail k carries batch k, is numbered k + 1, and records the batch's total and its text |
| Partitioner.MailsForContents | index.js:62-90 | every mail's files, number, total and total text |
| Partitioner.MailsForDrawn | index.js:75 | one id is drawn per kept file |
| Partitioner.MailsForEntries | index.js:56-93 | the mails' attachments, read one after another, are the batched files |
| Partitioner.MailsForIdentifiers | index.js:75 | the mails' attachments carry the ids of draws 0, 1, 2, ... in order |
| Partitioner.PartitionFacts | index.js:52-93 | the pushed mails: their files, numbers 1..N, totals within maxSize, total texts and ids |
| Partitioner.Consider | index.js:57-81 | one pass of the loop body moves the loop's variables along with the file's decision |
| Partitioner.Flushed | index.js:84-93 | after the last file, pushing the running batch when it holds a file gives exactly the mails of the listing |
| Partitioner.Partition | index.js:52-93 | the loop returns the mails of the listing's batches: their files, numbers 1..N, totals within maxSize, total texts, and the ids it drew in order |
| Presenter.RecidEntries | index.js:98-99 | renumbering keeps every file and size in order, and changes nothing about an attachment but its id, so its size text stays |
| Presenter.RecidAt | index.js:99 | renumbering gives the j-th attachment the id of draw start + j and changes nothing else |
| Presenter.RecidFields | index.js:98-99 | renumbering keeps the files and draws the ids in order |
| Presenter.SubjectsDistinct | index.js:96 | mails with different numbers get different subjects |
| Presenter.SubjectCount | index.js:96 | a subject is the base, then " (", then the mail's number in digits, then "/" |
| Presenter.PresentedFields | index.js:96-103 | a presented mail keeps files, size and number, gets its subject, ids drawn in order, and the body of its attachments |
| Presenter.PresentAllAt | index.js:95-104 | the k-th presented mail is mail k presented with the ids after those of the mails before it |
| Presenter.PresentAllFields | index.js:95-104 | the k-th presented mail keeps files, size and number, and gets its subject and body |
| Presenter.PresentAllIds | index.js:95-104 | the k-th presented mail's ids are drawn right after those of the mails before it |
| Presenter.PresentAllAttachments | index.js:95-104 | presenting keeps every file in place and draws fresh ids for all of them in order |
| Presenter.PresentAttachments | index.js:98-102 | the inner loop gives attachment j the id of draw start + j and builds the body of the renumbered attachments |
| Presenter.PresentMail | index.js:96-103 | one pass of the outer loop body presents the mail |
| Presenter.Present | index.js:95-104 | the outer loop presents every mail of the array in place, and counts the ids it drew |
| HtmlBody.HtmlAppend | index.js:97-102 | the body of two runs of attachments is the body of the first followed by that of the second |
| HtmlBody.HtmlEmpty | index.js:97-103 | the body is empty exactly when there is no attachment, and otherwise ends in `>` |
| HtmlBody.HtmlFragmentAt | index.js:101 | the fragment of attachment j follows the fragments of the attachments before it |
| HtmlBody.FragmentOccurrences | index.js:101 | a UUID-shaped id occurs in a fragment as often as in the file name, plus once if it is the fragment's id |
| HtmlBody.HtmlOccurrences | index.js:97-103 | with UUID-shaped ids and names free of `t`, `t` occurs in the body once per attachment carrying it |
| HtmlBody.CidAppearsOnce | index.js:97-103 | with UUID-shaped distinct ids and no id inside a name, each attachment's id occurs in the body exactly once |
| Mailer.BuildMails | index.js:52-104 | partitioning then presenting yields the mails the pipeline describes |
| Mailer.MailsOfFields | index.js:52-104 | mail k carries batch k, is numbered k + 1, records its total and total text, has subject "base (k+1/N)" and the body of its attachments |
| Mailer.MailsOfIds | index.js:95-104 | mail k's ids are drawn in order, right after the partition's draws and those of the mails before it |
| Mailer.MailsOfShape | index.js:52-104 | one mail per batch, and every mail's files, number, total, total text, subject and body |
| Mailer.MailsOfAttachments | index.js:52-104 | the sent attachments are the batched files in order, with ids drawn after all the partition's draws |
| Mailer.MailsOfRenumbered | index.js:99 | the sent attachments are the partition's attachments with new ids |
| Mailer.MailsOfIdsFresh | index.js:95-104 | when the run's 2D draws are pairwise different, the sent ids are pairwise distinct and none is an id the partition drew |
| Mailer.MailsOfCidOnce | index.js:97-103 | each attachment's id occurs exactly once in mail k's body, when the ids drawn for mail k are UUID-shaped, pairwise different and in none of its file names |
| Mailer.DrawnCidOnce | index.js:97-103 | attachments numbered from a draw on, with those draws UUID-shaped, distinct and in no file name: each id occurs once in their body |
| Mailer.MailingWithinCap | index.js:61-104 | every mail sent for a listing stays within maxSize |
| Mailer.MailingCidOnce | index.js:56-103 | when the D ids the presentation draws are UUID-shaped, pairwise different and in no name of the listing, each attachment's id occurs exactly once in its mail's body |
| Mailer.NoImagesNoMail | index.js:56-104 | a listing without images, an empty one in particular, sends no mail |

## Left out

- Command-line handling (`index.js:21-48`) is left out. This covers `commander`, `Number.parseInt` of `--max-size`, the `--to` check and the default subject taken from the directory name. `maxSize` and the base subject are parameters.
- The file system is left out. The result of `fs.readdirSync` with each file's `fs.statSync` size (`index.js:56-60`) is a parameter: a sequence of name and size pairs, in listing order.
- Path handling (`path.resolve`, `path.parse`) is left out, and names are plain base names. The filter is applied to the base name rather than the resolved path. The two agree because the pattern only looks at a suffix without `/`. The attachment's `path` field is not modelled.
- `uuidv4` is left out, because it is a random generator. It becomes the parameter `uuid`, with the i-th draw `uuid(i)`. That draws are pairwise different (`DistinctDraws`), have the UUID text shape (`UuidDraws`) and occur in no file name (`NamesAvoid`) are hypotheses, only of the lemmas that need them, and only over the draws those lemmas use.
- `sendMails`, nodemailer, the credentials and package files, `console.log`, `cli-progress` and `main().catch` are left out. They are network I/O, configuration and logging.
- `formatNumber` is modelled on natural numbers only. JavaScript's exponent notation for numbers of 10^21 and above is not modelled.
- Sizes, running totals, `maxSize` and mail counts are unbounded natural numbers. In JavaScript they are double-precision numbers, exact only up to 2^53; totals beyond that, where `currentSize + size` would round, are not modelled.
- Objects updated in place are modelled by value, except the array of mails:
  - `filesToSend`, cleared with `length = 0` after its copy is pushed, is a sequence variable. The pushed copy shares nothing with it.
  - The attachments whose `cid` the presentation overwrites are modelled as a new sequence of attachments, stored back into the mail.
  - The array of mails is updated in place. `Mailer.BuildMails` copies the pushed mails into a new array before presenting, where `index.js` keeps the same JavaScript array.
- Mailer.MailsOfCidOnce holds only when the ids drawn for the mail are UUID-shaped and pairwise different, and no file name of the mail contains one of them. `index.js` checks none of these. Without them an id can also occur inside a file name.
- Mailer.DrawnCidOnce carries the same hypotheses, for a run of attachments numbered from one draw on.
- Mailer.MailingCidOnce carries the same hypotheses over the ids the presentation draws, for every name of the listing.
- Mailer.MailsOfIdsFresh holds only when the ids of the run are pairwise different, which a random generator makes likely but does not promise.
- HtmlBody.CidAppearsOnce carries the same hypotheses, for one mail's attachments.
- Batching.KeptExactly assumes distinct names, as a directory listing has them. With repeated names, a file could also be found in a mail because an equal entry elsewhere was kept.
- Batching.SentOnce and Batching.InOneBatch assume distinct names, for the same reason.
