# BCF export and topics API of OpenProject, modelled in Dafny

This project models two pieces of OpenProject's BCF (BIM Collaboration
Format 2.1) support:

- `create_bcf_file!` (`lib/bcf.rb`) writes a BCF package. It creates a
  temporary directory and writes the `bcf.version` manifest. For each work
  package, in order, it makes a directory named by the work package's GUID
  and writes a `markup.bcf` document into it. That document holds a Topic
  and one Comment per journal with notes. Then it zips every written file
  into `<name>.bcfzip` and attaches the archive to the project's wiki page.
- `topic_representer` and its two routes
  (`lib/api/bcf/projects/topics_api.rb`) answer a work package with the GUID
  passed in, else the GUID stored in its "GUID" custom field, else a freshly
  generated UUID, which it stores. The list route represents every work
  package of the topic type. The per-guid route represents the work package
  that carries the GUID.

Modules:

- `Wrappers`: `Option` and `Result`.
- `Strings`: `end_with?` and `sub`.
- `Decimal`: `Integer#to_s` and zero padding, with their readers.
- `Xml`: the document tree the builder produces.
- `Timestamps`: `format_date_time`, that is UTC conversion, the civil
  calendar and `strftime`.
- `Bcf`: the documents, a `TempDir` class for the temporary directory, and
  the export.
- `TopicsApi`: a `TopicStore` class holding the work packages and their GUID
  custom values, with the helper and the two routes as methods.

The export has two forms:

- The imperative form, `CreateBcfFile`, runs the builder step by step. The
  `TempDir` methods `Mkdir` and `Write` fail where Ruby raises.
- The specification form, `Export` and the generic `Outcome`, is proved
  equal to the imperative form.

The documents are checked by reading them back. `ReadManifest`, `ReadTopic`,
`ReadComment` and `ReadMarkup` parse documents in the element order
`lib/bcf.rb` writes. Round-trip lemmas show that each document carries its work
package's data.

## Model

| member | source | states |
|---|---|---|
| Bcf.FirstGuidValue | lib/bcf.rb:100-102 | the position of the first custom value whose field is named "GUID": every earlier one has another name; none when no field has that name |
| Bcf.GuidOf | lib/bcf.rb:99-105 | `work_package_guid` as a value: the numeric id exactly when no custom value's field is named "GUID", and then the work package's own id; otherwise the value of the first GUID custom value, nil included (`WorkPackageGuid` is the loop that returns it) |
| Bcf.WorkPackageGuid | lib/bcf.rb:99-105 | the loop with early return gives the value of the first GUID custom value (possibly nil), else the numeric id, exactly when no custom value is a GUID |
| Bcf.CommentGuid | lib/bcf.rb:107-109 | a comment's Guid is the decimal digits of the journal id and reads back as that id |
| Bcf.Manifest | lib/bcf.rb:52-59 | builds the manifest document; it has no contract of its own, and `ManifestDeclaresVersion` states what it holds |
| Bcf.Topic | lib/bcf.rb:74-83 | builds the Topic element; it has no contract of its own, and `TopicRoundTrip` states what it holds and in which order |
| Bcf.CommentElement | lib/bcf.rb:85-91 | builds one Comment element; it has no contract of its own, and `CommentRoundTrip` states what it holds |
| Bcf.WithNotes | lib/bcf.rb:67 | `reject` of the journals with empty notes: no longer than the journals; every journal kept has notes; a journal is kept exactly when it is among the journals and its notes are not empty |
| Bcf.WorkPackageMarkup | lib/bcf.rb:61-72 | builds the markup document; it has no contract of its own, and `MarkupRoundTrip` and `OneTopicOneComment` state what it holds |
| Bcf.ManifestDeclaresVersion | lib/bcf.rb:52-59 | the manifest is the generated comment followed by a Version element whose VersionId and DetailedVersion both read back as "2.1" |
| Bcf.TopicRoundTrip | lib/bcf.rb:74-83 | a Topic reads back as the work package's GUID, type, status, subject, UTC dates, author mail and description; Index is present exactly when an index is given, 0 included, and reads back as it; children are in the order lib/bcf.rb writes |
| Bcf.CommentRoundTrip | lib/bcf.rb:85-91 | a Comment reads back as the journal's id, its UTC date, the work package author's mail and the notes |
| Bcf.CommentsRoundTrip | lib/bcf.rb:67-69 | the comment elements of a journal list read back as one comment per journal, in order |
| Bcf.MarkupRoundTrip | lib/bcf.rb:61-72 | a markup document reads back as its Topic followed by exactly the comments of the journals with notes |
| Bcf.WithNotesAppend | lib/bcf.rb:67 | filtering out empty notes keeps order: the filter of a concatenation is the concatenation of the filters |
| Bcf.MarkupCommentsHaveNotes | lib/bcf.rb:67-69 | every comment of a markup has non-empty text and the work package's author |
| Bcf.CommentInfoAt | lib/bcf.rb:67-69 | the k-th comment read back belongs to the k-th journal with notes |
| Bcf.OneTopicOneComment | lib/bcf.rb:61-72 | one journal with empty notes and one with notes give a Markup root with exactly a Topic and a Comment |
| Bcf.JoinInjective | lib/bcf.rb:17 | `"#{dir}/#{x}"` is injective in x and never equals dir |
| Bcf.TempDir.constructor | lib/bcf.rb:8 | a fresh temporary directory holds no files; its only directories are itself and its "", ".", ".." names |
| Bcf.InitialTreeMember | lib/bcf.rb:8 | a name below the fresh directory already is a directory exactly when it is "", "." or ".." |
| Bcf.TempDir.Mkdir | lib/bcf.rb:18 | `Dir.mkdir` fails exactly when the path exists as a directory or a file; otherwise it adds the directory and leaves the files alone |
| Bcf.TempDir.Write | lib/bcf.rb:12-14 | opening a file for writing fails exactly when the path is a directory; otherwise the path holds the new content and nothing else changes |
| Bcf.BcfzipName | lib/bcf.rb:29 | the archive name ends with ".bcfzip"; a name that already does is kept, any other gets the suffix appended |
| Bcf.BcfzipNameIdempotent | lib/bcf.rb:29 | naming twice is naming once |
| Bcf.GuidsAt | lib/bcf.rb:16-17 | the i-th directory name is the i-th work package's GUID text |
| Bcf.MarkupsAt | lib/bcf.rb:16-23 | the i-th markup is the i-th work package rendered with index i |
| Bcf.FirstClash | lib/bcf.rb:16-27 | the first work package whose directory or markup file cannot be created, with none before it; none exactly when no work package clashes |
| Bcf.ClashError | lib/bcf.rb:16-24 | the export error of the first clash, and no error exactly when nothing clashes |
| Bcf.Layout | lib/bcf.rb:9-27 | the files written: the manifest first, then `<guid_i>/markup.bcf` holding the i-th markup |
| Bcf.AddWorkPackage | lib/bcf.rb:17-26 | one loop turn: mkdir and markup write fail as the step error says; on success the directory and file sets and contents grow by exactly this work package's |
| Bcf.WriteMarkups | lib/bcf.rb:16-27 | the loop stops at the first clash with its error; on success the directories are the GUIDs' and the files are exactly the layout, listed in write order |
| Bcf.ZipEntries | lib/bcf.rb:33-37 | each file is added under its path with the `"#{dir}/"` prefix removed, in order, with the content written there |
| Bcf.ZipFiles | lib/bcf.rb:29-38 | the archive cannot be created where a directory has its path; otherwise it holds every written file in order |
| Bcf.Outcome | lib/bcf.rb:7-40 | the result `create_bcf_file!` specifies, for any manifest and renderer; it has no contract of its own, and `BuildPackage` is proved equal to it |
| Bcf.Export | lib/bcf.rb:7-40 | `Outcome` with the real manifest and indexed markups; it has no contract of its own, and `CreateBcfFile` is proved equal to it, with `PackageLayout`, `ExportTopicIndex`, `ExportManifest`, `DistinctGuids`, `SharedGuidFails`, `EmptyInputFails` and `SucceedsIff` proved about it |
| Bcf.BuildPackage | lib/bcf.rb:7-40 | the step-by-step builder, for any manifest and renderer, returns exactly the specified outcome |
| Bcf.CreateBcfFile | lib/bcf.rb:7-40 | `create_bcf_file!` with the real manifest and indexed markups returns exactly `Export` |
| Bcf.PackageLayout | lib/bcf.rb:9-38 | a successful export has at least one work package; the archive is `tmp/<name>.bcfzip`; its n+1 entries are `bcf.version` and then `<guid_i>/markup.bcf` with the i-th markup, in input order; no entry has the archive's name |
| Bcf.ExportTopicIndex | lib/bcf.rb:16-23 | in a successful export the markup of entry i+1 reads back as the i-th work package's Topic with Index i, followed by its journals with notes as comments |
| Bcf.ExportManifest | lib/bcf.rb:9-14 | the first entry of a successful export is `bcf.version` declaring version 2.1 |
| Bcf.DistinctGuids | lib/bcf.rb:16-18 | a successful export has pairwise distinct GUIDs |
| Bcf.SharedGuidFails | lib/bcf.rb:16-24 | two work packages with the same GUID make the export fail in `Dir.mkdir` or `File.open` |
| Bcf.EmptyInputFails | lib/bcf.rb:40 | an empty list fails with no container |
| Bcf.FlatClashFreeIff | lib/bcf.rb:16-24 | GUIDs without a slash are all created exactly when they are pairwise distinct and none is "", ".", ".." or "bcf.version" |
| Bcf.SucceedsIff | lib/bcf.rb:7-40 | for GUIDs and an archive name without a slash, an export succeeds exactly when the list is non-empty, the GUIDs are distinct, none is a taken name and none equals the archive name |
| Strings.EndsWithAppended | lib/bcf.rb:29 | appending a suffix makes the name end with it |
| Strings.ReplaceFirstOfPrefix | lib/bcf.rb:34 | `sub` of a leading prefix removes exactly that prefix |
| Decimal.ParseNatToString | lib/bcf.rb:77 | `Integer#to_s` of a natural number reads back as that number |
| Decimal.PaddedRoundTrip | lib/bcf.rb:116 | a zero-padded field reads back as its number, with exactly the padded width when it fits |
| Timestamps.ToUtc | lib/bcf.rb:116 | `utc` keeps the instant and sets the offset to zero |
| Timestamps.DaysRoundTrip | lib/bcf.rb:116 | the calendar date of a day count counts back to the same day; with `CivilFromDaysValid`, that date is a real one, so distinct days give distinct real dates |
| Timestamps.CivilFromDaysValid | lib/bcf.rb:116 | every day count converts to a real Gregorian date: no 31st of a 30-day month, and a 29th of February only in a leap year |
| Timestamps.UtcDateValid | lib/bcf.rb:116 | the UTC year, month and day of any time form a real calendar date |
| Timestamps.UtcFieldsDetermineInstant | lib/bcf.rb:116 | the UTC calendar fields of a time name its instant exactly |
| Timestamps.FormatLayout | lib/bcf.rb:116 | strftime of "%Y-%m-%dT%H:%M:%SZ" is the six fields between their separators |
| Timestamps.FormatIsStrftime | lib/bcf.rb:115-117 | `format_date_time` is strftime of the timestamp format on the UTC fields |
| Timestamps.FormatDateTime | lib/bcf.rb:115-117 | `format_date_time`; it has no contract of its own, and `FormatIsStrftime`, `FormatDateTimeRoundTrip`, `FormatDependsOnlyOnInstant` and `FormatDistinguishesInstants` state what it returns |
| Timestamps.RenderedRoundTrip | lib/bcf.rb:116 | fields within their printed widths render as the 20-character pattern and parse back unchanged |
| Timestamps.FormatDateTimeRoundTrip | lib/bcf.rb:115-117 | for years 0 to 9999 the timestamp has 20 characters, fits the pattern and parses back to the UTC fields |
| Timestamps.FormatDependsOnlyOnInstant | lib/bcf.rb:116 | the zone a time carries does not change its timestamp |
| Timestamps.FormatDistinguishesInstants | lib/bcf.rb:116 | for years 0 to 9999, equal timestamps exactly when equal whole-second instants |
| TopicsApi.Resolve | lib/api/bcf/projects/topics_api.rb:45-50 | the GUID `topic_representer` settles on; it has no contract of its own, and `ResolveCases`, `ResolveIdempotent` and `ResolveIsLocal` state it |
| TopicsApi.ResolveCases | lib/api/bcf/projects/topics_api.rb:45-50 | a UUID is generated exactly when no GUID is passed and none is stored; a passed GUID wins over the stored one; only a generation writes, and it writes that UUID |
| TopicsApi.ResolveIdempotent | lib/api/bcf/projects/topics_api.rb:45-50 | after a resolution, resolving again returns the same GUID from the store and writes nothing |
| TopicsApi.ResolveIsLocal | lib/api/bcf/projects/topics_api.rb:48-49 | a resolution changes no other work package's GUID |
| TopicsApi.Record | lib/api/bcf/projects/topics_api.rb:51-57 | the hash carries the GUID, the author's mail, the creation and update times and the subject |
| TopicsApi.TopicStore.TopicRepresenter | lib/api/bcf/projects/topics_api.rb:44-58 | returns the hash of the resolved GUID; the store changes only by the generated UUID, and the generator advances only then |
| TopicsApi.OfType | lib/api/bcf/projects/topics_api.rb:67-69 | `where(type_id:)`: no more work packages than given, each of the topic type |
| TopicsApi.OfTypeMembers | lib/api/bcf/projects/topics_api.rb:67-69 | a work package is listed exactly when it is in the table and has the topic type |
| TopicsApi.OfTypeOrdered | lib/api/bcf/projects/topics_api.rb:67-69 | selecting one type keeps id order |
| TopicsApi.Listing | lib/api/bcf/projects/topics_api.rb:70 | `map(&method(:topic_representer))` over a list; it has no contract of its own, and `ListingKeeps`, `ListingTopics`, `ListingAllStored` and `ListingTwice` state it |
| TopicsApi.ListingKeeps | lib/api/bcf/projects/topics_api.rb:66-71 | listing keeps every stored GUID, stores one for each listed work package and for no other |
| TopicsApi.ListingTopics | lib/api/bcf/projects/topics_api.rb:66-71 | listing answers one topic per work package, in order, each with the GUID stored for it afterwards |
| TopicsApi.ListingAllStored | lib/api/bcf/projects/topics_api.rb:66-71 | when every listed work package has a GUID, listing writes nothing and answers the stored GUIDs |
| TopicsApi.ListingTwice | lib/api/bcf/projects/topics_api.rb:66-71 | listing again after a listing answers the same topics and generates and writes nothing |
| TopicsApi.TopicStore.ListTopics | lib/api/bcf/projects/topics_api.rb:66-71 | the list route's loop answers exactly the listing of the topic type's work packages and leaves the store as the listing does |
| TopicsApi.ListTopicsFacts | lib/api/bcf/projects/topics_api.rb:66-71 | the list route answers one topic per work package of the type, in id order, keeps stored GUIDs, and is idempotent |
| TopicsApi.FindByGuid | lib/api/bcf/projects/topics_api.rb:76-77 | the first work package whose stored GUID equals the parameter, none exactly when no work package carries it |
| TopicsApi.FindByGuidLeastId | lib/api/bcf/projects/topics_api.rb:77 | in id order, the work package found has the least id of all that carry the GUID |
| TopicsApi.TopicStore.ShowTopic | lib/api/bcf/projects/topics_api.rb:73-81 | the per-guid route answers the found work package's hash with the parameter as GUID and writes nothing; with the rows in id order the one found has the least id of all carrying the GUID; without a work package it fails |

Behaviour of the code the model keeps:

- `xml.Index index if index` writes Index for index 0 too, because 0 is true
  in Ruby. Every topic of an export carries its Index.
- `work_package_guid` never generates a UUID. It returns the first GUID
  custom value, which may be nil, or else the numeric id. A nil value
  interpolates to "", so `Dir.mkdir "#{dir}/"` finds the temporary directory
  itself and fails. UUID generation happens only in `topic_representer`.
- An empty work package list is not refused up front. The manifest is
  written and zipped into an archive holding only `bcf.version`. Only
  `work_packages.first` then fails (`EmptyInputFails`).
- This exporter writes no viewpoints or snapshots.
- A Comment's Author is the work package author's mail, not the journal's.
- A Topic's children come in the order `lib/bcf.rb:76-81` writes them:
  Title, Index, CreationDate, ModifiedDate, CreationAuthor, Description.
  The BCF 2.1 markup schema puts CreationAuthor before ModifiedDate. The
  readers accept the code's order.

## Left out

- Attachment creation, the project's wiki page lookup (`first!` failing when
  no "Wiki" page exists) and the current user are not modelled: they are
  database calls. The model stops at the archive and at the nil
  `work_packages.first`.
- The `ensure` clause's `FileUtils.rm_rf` is not modelled. The `TempDir`
  value is simply dropped.
- `Dir.mktmpdir` becomes the path parameter `tmp`. Its fresh contents are
  given by `InitialTree`.
- The archive is not modelled as bytes. XML serialisation (`to_xml`,
  escaping, declarations) and zip encoding are out of scope. Entries hold the
  document trees.
- `created_by_comment` reads `OpenProject::VERSION` and the clock. It is the
  parameter `createdBy(k)`, the comment of the k-th document written.
- I/O failures other than the name clashes (disk full, permissions) are not
  modelled.
- Paths are compared as strings. A GUID containing "/" is not resolved
  against the directory tree, so a nested directory whose parent is missing
  is not reported as failing.
- Bcf.ZipFiles: the archive name is not resolved against the directory tree
  either. A name with a slash whose directory does not exist, such as
  "missing/x", makes Ruby raise Errno::ENOENT when the archive is committed.
  The model only refuses an archive path that is a GUID directory.
- Bcf.SucceedsIff: stated only for GUIDs and archive names without a slash,
  because of the two lines above.
- Timestamps.FormatDistinguishesInstants: times are whole seconds. Ruby's
  `created_at` and `updated_at` carry fractions of a second, which `%S`
  drops. The model's second is the floor of Ruby's time and renders the
  same, so two times within one second give one timestamp, and "instant" in
  this lemma means a whole second.
- `topic_xml` (lib/bcf.rb:93-97) is never called, so it is not modelled.
- In the topics API, the `authorize` before-block, the `binding.pry`
  breakpoint and the lookups of the "GUID" custom field and of the topic type
  are not modelled. The custom field is assumed to exist, and the topic
  type's id is a parameter.
- `iso8601` formatting of the creation and update times is not modelled.
  Topics carry the time values.
- `SecureRandom.uuid` is the store's oracle `uuid(k)`, its k-th answer. A
  failing `save!` is not modelled.
- `WorkPackage.where(...).all` has no order clause. The model lists in id
  order.
- TopicsApi.TopicStore.ShowTopic: when no work package carries the GUID,
  the source raises NoMethodError on nil. The model returns
  `Failure(NoWorkPackage)` instead.
