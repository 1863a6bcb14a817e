# AD User Status — a Dafny model of the classification core

AD User Status is a Windows desktop tool. It reads a list of users from a worksheet
(SpreadsheetML 2003 or delimited text) and looks each one up in Active Directory over
LDAP, first by email address and then by sAMAccountName. It sorts the users into four
buckets — Enabled, Disabled, NotFound and External — and exports the four lists as the
sheets of an Excel workbook. Its help window shows HTML pages that it extracts from
embedded resources into a temporary folder.

This project models that core in Dafny and proves what each part promises:

| module | models |
|---|---|
| `Wrappers` | `Option` (a nullable reference) and `Result` (a value or the exception that replaced it) |
| `Text` | the .NET string operations the core uses: `Trim`, `IsNullOrWhiteSpace`, `ToLowerInvariant`, ordinal case-insensitive comparison, `Split(char)`, `String.Join`, `IndexOf`, one-character `Replace`, LINQ `Count` |
| `Models` | `UserDto` and the four category filters `results.Where(x => x.Category == c)` |
| `LdapService` | filter escaping, email normalisation, attribute projection, the two lookups, `DnToDns` and `GetInternalDomains` |
| `MainForm` | `ProcessUsers`: the per-record classification, the batch loop with progress and cancellation, and the tagging of the four lists for export |
| `ExcelService` | `MapColumns`, `RequireHeaders`, `ReadDelimitedText`, the row padding and reading of `ReadSpreadsheetXml`, and the sheets of `ExportResults` |
| `HelpForm` | the help topic, the start page fallback, the external-link test, `Path.Combine`, and the mapping from embedded resource names to extracted files |

How the environment enters the model:

- The LDAP connection is a value `Service(baseDn, send)`. `send` is what the directory
  answers to each `SearchRequest`: the entries in order, or `Faulted` when `SendRequest`
  raises. A lookup returns its result and the requests it sent.
- The cancellation token is a number `cancelAt`. It is the index of the first record at
  whose check the token is seen cancelled; a value of at least the input length means
  it is never seen. Progress reports are returned as a sequence, in the order made.
- Files are given as their contents. Delimited text is a sequence of lines. A
  SpreadsheetML document is its first `ss:Table` as rows of parsed cells (`ss:Index`
  and the text of `ss:Data`). A workbook is its sheets as tables of cell texts.
- `File.Exists` is a parameter `fileExists`. A non-null `GetManifestResourceStream` is a
  parameter `hasStream`. The temporary folder is a parameter `tempPath`.

Proof shape. Each loop of the source is a method proved equal to a specification
function (`DnToDns` = `DnsName`, `GetInternalDomains` = `InternalDomains`, `RunBatch` =
`Sort(Results(...))`, `ReadRow` = `PaddedRow`, `AddSheet` = `SheetRows`,
`ExtractHelpFiles` = `Extractions`). The promises of the source are then lemmas about
those functions. Examples: escaping is per character and can be undone; every record
lands in exactly one bucket; a cancelled run's lists are prefixes of the completed
run's; an extracted file lies inside its folder.

One consequence of the resource-name mapping is proved as written and worth knowing.
A help path with two or more dots is always split into folders plus a last
`name.extension` (`HelpForm.LongPathSplits`). A page such as `jquery.min.js` at the
help root is therefore written as `jquery\min.js`.

## Model

| member | source | states |
|---|---|---|
| `Text.TrimStartFacts` | src/AdUserStatus/Services/LdapService.cs:55 | `TrimStart` keeps a suffix of its input, removes only white space, and what it keeps does not start with white space |
| `Text.TrimEndFacts` | src/AdUserStatus/Services/LdapService.cs:55 | `TrimEnd` keeps a prefix of its input, removes only white space, and what it keeps does not end with white space |
| `Text.TrimShape` | src/AdUserStatus/Services/ExcelService.cs:191 | `Trim` keeps a contiguous part of the input, with only white space removed on either side, and the result has no white space at either end |
| `Text.BlankIffTrimEmpty` | src/AdUserStatus/MainForm.cs:529 | a string is null-or-white-space exactly when trimming leaves nothing |
| `Text.TrimIdempotent` | src/AdUserStatus/MainForm.cs:525-526 | trimming twice is trimming once |
| `Text.TrimOfTrimmed` | src/AdUserStatus/MainForm.cs:525-526 | a string with no white space at either end is left unchanged by `Trim` |
| `Text.LowerChar` | src/AdUserStatus/Services/LdapService.cs:173 | upper-case ASCII letters map to the letter 32 code points above, which is lower-case, and every other character is kept |
| `Text.Lower` | src/AdUserStatus/Services/LdapService.cs:173 | lower-casing keeps the length and works character by character |
| `Text.LowerFacts` | src/AdUserStatus/Services/LdapService.cs:55 | lower-casing is idempotent, keeps blankness, and distributes over concatenation |
| `Text.IndexOfIgnoreCase` | src/AdUserStatus/Services/HelpForm.cs:110 | the result is the first position at or after the start where the pattern matches ignoring case; none means there is no match there |
| `Text.Count` | src/AdUserStatus/Services/ExcelService.cs:182 | the count is at most the length and is positive exactly when the character occurs |
| `Text.CountIsMultiplicity` | src/AdUserStatus/Services/ExcelService.cs:182 | the count is the number of times the character occurs, its multiplicity in the multiset of the characters |
| `Text.IndexOfChar` | src/AdUserStatus/Services/LdapService.cs:133 | the first occurrence of the character, or none exactly when it does not occur |
| `Text.DropLeading` | src/AdUserStatus/Services/LdapService.cs:133 | removes exactly the leading run of the character and keeps the rest |
| `Text.Split` | src/AdUserStatus/Services/HelpForm.cs:113 | a split gives one piece more than there are separators, and no piece holds the separator |
| `Text.JoinSplit` | src/AdUserStatus/Services/HelpForm.cs:125 | joining the pieces of a split with the same separator gives the string back |
| `Text.SplitJoin` | src/AdUserStatus/Services/LdapService.cs:131 | splitting a join of separator-free pieces gives the pieces back |
| `Text.JoinAppend` | src/AdUserStatus/Services/HelpForm.cs:130 | joining two non-empty lists of pieces is joining each and putting one separator between them |
| `Text.SplitFree` | src/AdUserStatus/MainForm.cs:527 | a string without the separator splits into itself alone |
| `Text.SplitPrefix` | src/AdUserStatus/MainForm.cs:527 | the first piece of a split ends at the first separator, and the rest splits on its own |
| `Text.ReplaceChar` | src/AdUserStatus/Services/LdapService.cs:50-52 | a replaced character no longer occurs unless the replacement holds it; no new characters come from anywhere else |
| `Text.ReplaceCharAppend` | src/AdUserStatus/Services/LdapService.cs:50-52 | replacement distributes over concatenation |
| `Text.ReplaceCharAbsent` | src/AdUserStatus/Services/LdapService.cs:55 | replacing a character that does not occur changes nothing |
| `Models.WithCategory` | src/AdUserStatus/Services/ExcelService.cs:73-76 | a category filter is no longer than its input and holds only records of that category |
| `Models.WithCategoryAppend` | src/AdUserStatus/Services/ExcelService.cs:73-76 | filtering distributes over concatenation, so each filtered list keeps input order |
| `Models.WithCategoryMembers` | src/AdUserStatus/Services/ExcelService.cs:73-76 | a record is in the filtered list exactly when it is in the input with that category |
| `Models.PartitionAmong` | src/AdUserStatus/MainForm.cs:564-583 | records whose categories are among four distinct names are split among the four filters without loss or duplication (as multisets) |
| `Models.CategoriesPartition` | src/AdUserStatus/MainForm.cs:564-583 | records that all carry one of the four bucket names are split among the four bucket filters without loss or duplication, and the four lengths add up to the input length |
| `Models.TagsDistinct` | src/AdUserStatus/MainForm.cs:447-450 | the four bucket names are pairwise different |
| `LdapService.EscapeChar` | src/AdUserStatus/Services/LdapService.cs:50-52 | each of `\`, `*`, `(`, `)` and NUL becomes three characters starting with a backslash; every other character is kept |
| `LdapService.EscAppend` | src/AdUserStatus/Services/LdapService.cs:50-52 | the chain of replacements distributes over concatenation |
| `LdapService.EscOneChar` | src/AdUserStatus/Services/LdapService.cs:50-52 | on one character the chain of replacements gives that character's escape |
| `LdapService.EscIsPerCharacter` | src/AdUserStatus/Services/LdapService.cs:50-52 | because the backslash is replaced first, the chain escapes each input character exactly once and never re-escapes an escape |
| `LdapService.EscapeEachSafe` | src/AdUserStatus/Services/LdapService.cs:50-52 | the per-character escape contains no raw `*`, `(`, `)` or NUL |
| `LdapService.EscapedValueIsSafe` | src/AdUserStatus/Services/LdapService.cs:50-52 | an escaped value contains no raw `*`, `(`, `)` or NUL |
| `LdapService.UnescapeEscapeEach` | src/AdUserStatus/Services/LdapService.cs:50-52 | decoding the per-character escape gives the input back |
| `LdapService.UnescapeEsc` | src/AdUserStatus/Services/LdapService.cs:50-52 | decoding an escaped value gives the input back: escaping loses nothing |
| `LdapService.EscInjective` | src/AdUserStatus/Services/LdapService.cs:50-52 | different values escape to different filter values |
| `LdapService.EscInjectionExample` | src/AdUserStatus/Services/LdapService.cs:50-52 | the injection attempt `)(uid=*` escapes to `\29\28uid=\2a` |
| `LdapService.NormalizeEmail` | src/AdUserStatus/Services/LdapService.cs:54-55 | a normalised email contains no space and no no-break space |
| `LdapService.NormalizedShape` | src/AdUserStatus/Services/LdapService.cs:54-55 | a normalised email has no white space at either end and no upper-case letter |
| `LdapService.NormalizeEmailIdempotent` | src/AdUserStatus/Services/LdapService.cs:54-55 | normalising a normalised email changes nothing |
| `LdapService.NormalizeEmailIgnoresCase` | src/AdUserStatus/Services/LdapService.cs:54-55 | letter case in the input makes no difference to the normalised email |
| `LdapService.NormalizeEmailIgnoresSurroundingSpace` | src/AdUserStatus/Services/LdapService.cs:54-55 | white space around the input makes no difference to the normalised email |
| `LdapService.GetAttr` | src/AdUserStatus/Services/LdapService.cs:57-60 | the first value of the attribute, and null exactly when the attribute is missing or has no values |
| `LdapService.TryParseInt32` | src/AdUserStatus/Services/LdapService.cs:73 | a parsed value lies within the 32-bit signed range |
| `LdapService.TryParseDecimal` | src/AdUserStatus/Services/LdapService.cs:73 | parsing the decimal text of a non-negative 32-bit value gives the value back |
| `LdapService.ProjectUser` | src/AdUserStatus/Services/LdapService.cs:62-77 | the user is found exactly when there is an entry; without one the tuple is all null; with one the names are the first values of displayName, sAMAccountName and userPrincipalName, and the state is the disable-bit test when userAccountControl parses as a 32-bit integer and unknown otherwise |
| `LdapService.ProjectAccountControl` | src/AdUserStatus/Services/LdapService.cs:71-74 | for a numeric userAccountControl the account is enabled exactly when bit 0x2 is clear; without the attribute the state is unknown |
| `LdapService.ProjectAccountControlExamples` | src/AdUserStatus/Services/LdapService.cs:71-74 | 512 is enabled and 514 is disabled |
| `LdapService.ProjectGarbledExample` | src/AdUserStatus/Services/LdapService.cs:71-74 | a userAccountControl that does not parse leaves the state unknown |
| `LdapService.EscParensFree` | src/AdUserStatus/Services/LdapService.cs:91 | an escaped value contributes no parenthesis to a filter |
| `LdapService.EmailFilterStructure` | src/AdUserStatus/Services/LdapService.cs:90-96 | whatever the email, the search filter has the nesting of the intended filter: an AND of two clauses and an OR of four |
| `LdapService.SamFilterStructure` | src/AdUserStatus/Services/LdapService.cs:115-118 | whatever the short name, the search filter has the nesting of the intended three-clause AND |
| `LdapService.Search` | src/AdUserStatus/Services/LdapService.cs:98-103 | exactly one request is sent; the lookup raises exactly when the request raises; it finds a user exactly when there is an entry, and then projects the first entry |
| `LdapService.FindByEmail` | src/AdUserStatus/Services/LdapService.cs:85-104 | a blank email is not found and sends nothing; any other email sends exactly the subtree search for its normalised, escaped value, and its outcome is that search's: an error exactly when it faults, found exactly when it returns entries, and then the projection of the first entry |
| `LdapService.FindBySamAccountName` | src/AdUserStatus/Services/LdapService.cs:110-126 | a blank name is not found and sends nothing; any other name sends exactly the subtree search for its trimmed, escaped value, and its outcome is that search's: an error exactly when it faults, found exactly when it returns entries, and then the projection of the first entry |
| `LdapService.NonEmpty` | src/AdUserStatus/Services/LdapService.cs:131 | removing empty entries keeps only non-empty pieces taken from the input |
| `LdapService.SplitNonEmpty` | src/AdUserStatus/Services/LdapService.cs:131 | the RDNs are non-empty and hold no comma |
| `LdapService.SplitKeyValueShape` | src/AdUserStatus/Services/LdapService.cs:133 | splitting an RDN on `=` into at most two non-empty pieces: at most two come out, none is empty, and the first holds no `=` |
| `LdapService.KeyValueShape` | src/AdUserStatus/Services/LdapService.cs:133 | the same, once leading `=`s are gone |
| `LdapService.SplitKeyValueOf` | src/AdUserStatus/Services/LdapService.cs:133 | an RDN `key=value` splits into its key and its value |
| `LdapService.DnToDns` | src/AdUserStatus/Services/LdapService.cs:128-138 | the loop computes the dot-joined labels of the `DC=` components, in order |
| `LdapService.DnsNameOfRdns` | src/AdUserStatus/Services/LdapService.cs:128-138 | converting a comma-joined list of RDNs gives the dot-joined labels of those RDNs |
| `LdapService.DcLabelOfDc` | src/AdUserStatus/Services/LdapService.cs:134-135 | a `DC=label` component gives back its label |
| `LdapService.OtherKeyIsNotDc` | src/AdUserStatus/Services/LdapService.cs:134 | a component whose key is not `DC`, ignoring case, contributes no label |
| `LdapService.DnsNameOfDcComponents` | src/AdUserStatus/Services/LdapService.cs:128-138 | a DN made of `DC=` components converts back to its labels joined with dots |
| `LdapService.DnsNameIgnoresOtherComponents` | src/AdUserStatus/Services/LdapService.cs:128-138 | non-`DC` components in front of the `DC=` ones are ignored: `OU=Staff,DC=corp,DC=example` names `corp.example` |
| `LdapService.FirstValue` | src/AdUserStatus/Services/LdapService.cs:156 | reading the first value raises exactly when the attribute is present with no values; otherwise it is the attribute's first value or null |
| `LdapService.AddCrossRefDomains` | src/AdUserStatus/Services/LdapService.cs:164-175 | the crossRef loop adds the lower-cased dnsRoot of every domain crossRef entry to the set, and nothing else |
| `LdapService.AddUpnSuffixes` | src/AdUserStatus/Services/LdapService.cs:180-184 | the suffix loop adds every lower-cased UPN suffix to the set, and nothing else |
| `LdapService.GetInternalDomains` | src/AdUserStatus/Services/LdapService.cs:143-187 | the result is the current domain plus the domains discovered from the partitions container, or a fault when any query raises |
| `LdapService.CrossRefDomainsMembers` | src/AdUserStatus/Services/LdapService.cs:164-175 | a domain comes from the crossRef entries exactly when some entry has a `DC=` nCName and a non-blank dnsRoot that lower-cases to it |
| `LdapService.LowerAllMembers` | src/AdUserStatus/Services/LdapService.cs:183 | a domain comes from the UPN suffixes exactly when some suffix lower-cases to it |
| `LdapService.InternalDomainsAreLowerCase` | src/AdUserStatus/Services/LdapService.cs:143-187 | every key of the discovered set is lower-case, so membership is insensitive to case |
| `LdapService.DiscoveryFallsBackToCurrentDomain` | src/AdUserStatus/Services/LdapService.cs:152-157 | with no RootDSE entry, or no usable configuration naming context, the result is the current domain alone |
| `MainForm.EmailDomain` | src/AdUserStatus/MainForm.cs:527 | there is a domain exactly when the email contains `@` |
| `MainForm.EmailDomainIsSecondPiece` | src/AdUserStatus/MainForm.cs:527 | the domain is the text between the first `@` and the next `@` (or the end), trimmed and lower-cased |
| `MainForm.CategoryOf` | src/AdUserStatus/MainForm.cs:560-561 | a found account is Enabled exactly when enabled, Disabled exactly when disabled, and NotFound otherwise |
| `MainForm.Classify` | src/AdUserStatus/MainForm.cs:522-598 | every record gets one of the four bucket names |
| `MainForm.ClassifyResolved` | src/AdUserStatus/MainForm.cs:552-598 | a record with lookups gets one of the four bucket names and reports exactly the lookups made |
| `MainForm.LookUp` | src/AdUserStatus/MainForm.cs:544-550 | the lookups made for one record and their outcome are those of the lookup order below |
| `MainForm.ResolveCalls` | src/AdUserStatus/MainForm.cs:544-550 | an email lookup happens only for a non-blank email; a short-name lookup follows only for a non-blank name when the email lookup was skipped or found nothing without raising |
| `MainForm.ProcessRecord` | src/AdUserStatus/MainForm.cs:522-598 | the loop body, with its try/catch, makes the record and lookups of the classification of that row |
| `MainForm.BlankRecordSendsNothing` | src/AdUserStatus/MainForm.cs:529-540 | a row whose trimmed email and name are both blank is NotFound, has an unknown state and makes no lookup |
| `MainForm.LookupOrder` | src/AdUserStatus/MainForm.cs:543-550 | the lookups of a whole row, in order: email first if non-blank, then the short name if non-blank and the email lookup missed; nothing else |
| `MainForm.FoundRecord` | src/AdUserStatus/MainForm.cs:552-567 | a found account takes the directory's state and bucket, the directory's short name (else the trimmed input), the directory's display name (else the input's), and the trimmed input email unless blank (else the UPN, else the raw email) |
| `MainForm.NotFoundRecord` | src/AdUserStatus/MainForm.cs:568-584 | an account the directory does not know keeps the trimmed input short name, the input display name and the trimmed input email, and has an unknown state; it is NotFound exactly when its email domain is a non-blank internal domain, and External otherwise |
| `MainForm.NoDomainIsExternal` | src/AdUserStatus/MainForm.cs:579-580 | an unknown account whose email has no `@` is External |
| `MainForm.FaultedLookup` | src/AdUserStatus/MainForm.cs:587-598 | a lookup that raises leaves a NotFound record carrying the raw row fields and an unknown state |
| `MainForm.Results` | src/AdUserStatus/MainForm.cs:518-602 | one result record per input row, in input order |
| `MainForm.Progress` | src/AdUserStatus/MainForm.cs:601 | after `k` records the reports are `(1, n)` up to `(k, n)` |
| `MainForm.ProcessUsers` | src/AdUserStatus/MainForm.cs:504-606 | a fault while discovering domains ends the run before any lookup or report; otherwise the run is that of the batch loop with the discovered domains |
| `MainForm.RunBatch` | src/AdUserStatus/MainForm.cs:518-605 | the lookups of the rows handled, in order. A cancelled run has the per-record reports so far. A completed run returns each category's results in input order, reports `(i, n)` for each record and `(n, n)` once more, and its four lists add up to the input length |
| `MainForm.BucketsSnoc` | src/AdUserStatus/MainForm.cs:564-583 | a new record goes to the end of the list of its category and the other lists are unchanged |
| `MainForm.BatchPartition` | src/AdUserStatus/MainForm.cs:518-602 | every record lands in exactly one list: together the four lists hold the results, each once |
| `MainForm.BucketsArePrefixes` | src/AdUserStatus/MainForm.cs:520 | the lists of a run cancelled before record `k` are prefixes of those of the completed run |
| `MainForm.ResultsAppend` | src/AdUserStatus/MainForm.cs:518-602 | the results of two inputs back to back are the results of each |
| `MainForm.Tag` | src/AdUserStatus/MainForm.cs:447-450 | tagging keeps the records and their order and sets each category to the tag |
| `MainForm.TagIdentity` | src/AdUserStatus/MainForm.cs:447-450 | tagging records that already carry the tag changes nothing |
| `MainForm.ExportListOfSort` | src/AdUserStatus/MainForm.cs:446-450 | the export list of a run is its four lists concatenated unchanged, Enabled first, then Disabled, NotFound and External |
| `MainForm.ExportRecoversBucket` | src/AdUserStatus/MainForm.cs:446-450 | filtering the export list by a bucket name, as the export sheets do, gives back exactly that bucket |
| `ExcelService.Keys` | src/AdUserStatus/Services/ExcelService.cs:211-212 | a header's dictionary key is its trimmed text, compared ignoring case |
| `ExcelService.Index` | src/AdUserStatus/Services/ExcelService.cs:211-212 | the dictionary exists exactly when no key repeats; it maps each key to its column and holds nothing else; on a repeat it names the first key already added |
| `ExcelService.FirstPresent` | src/AdUserStatus/Services/ExcelService.cs:214-219 | the first synonym present in the dictionary, or none exactly when none is present |
| `ExcelService.RequireHeaders` | src/AdUserStatus/Services/ExcelService.cs:229-234 | reading continues exactly when there is an email column, with the columns unchanged |
| `ExcelService.HeaderColumns` | src/AdUserStatus/Services/ExcelService.cs:185-186 | the columns a reader goes on with always include an email column |
| `ExcelService.ColIsFirstSynonym` | src/AdUserStatus/Services/ExcelService.cs:214-223 | the column is that of the first listed synonym that is a header, whatever later synonyms match |
| `ExcelService.ColAbsentExactly` | src/AdUserStatus/Services/ExcelService.cs:214-223 | a field has no column exactly when none of its synonyms is a header |
| `ExcelService.ColIsSynonym` | src/AdUserStatus/Services/ExcelService.cs:214-223 | a column found is a header matching one of the synonyms |
| `ExcelService.HeaderErrors` | src/AdUserStatus/Services/ExcelService.cs:209-234 | reading stops for a missing email column exactly when the headers are distinct and none is an email synonym, and for a duplicate header exactly when two keys repeat |
| `ExcelService.Field` | src/AdUserStatus/Services/ExcelService.cs:193 | a missing column or a short row gives the empty string; any other field is a cell of the row, trimmed when the cells are |
| `ExcelService.RowUser` | src/AdUserStatus/Services/ExcelService.cs:193-204 | a row is skipped exactly when its short name and email are both blank; otherwise its record has a display name and an email (possibly empty), no state and no category, and trimmed fields when the cells are trimmed |
| `ExcelService.Collect` | src/AdUserStatus/Services/ExcelService.cs:188-205 | no more records than rows |
| `ExcelService.CollectAppend` | src/AdUserStatus/Services/ExcelService.cs:188-205 | the records of rows followed by more rows are those of each, in order |
| `ExcelService.CollectKeeps` | src/AdUserStatus/Services/ExcelService.cs:188-205 | every record collected is one that some row gives |
| `ExcelService.CollectComplete` | src/AdUserStatus/Services/ExcelService.cs:188-205 | every record that a row gives is collected |
| `ExcelService.BestIndex` | src/AdUserStatus/Services/ExcelService.cs:182 | the chosen delimiter occurs at least as often as every candidate, and more often than every earlier one (the sort is stable) |
| `ExcelService.DelimiterDefaultsToTab` | src/AdUserStatus/Services/ExcelService.cs:181-182 | a header line containing no candidate is split on tabs |
| `ExcelService.TrimAll` | src/AdUserStatus/Services/ExcelService.cs:191 | each piece is trimmed and has no white space at either end |
| `ExcelService.Cells` | src/AdUserStatus/Services/ExcelService.cs:191 | the cells of a line have no white space at either end |
| `ExcelService.LineUser` | src/AdUserStatus/Services/ExcelService.cs:190-204 | a record comes only from a non-blank line, and has a short name or email that is not blank and trimmed fields |
| `ExcelService.DelimitedRecords` | src/AdUserStatus/Services/ExcelService.cs:175-207 | every record read from delimited text has a non-blank short name or email, no state or category, and trimmed fields |
| `ExcelService.ReadDelimitedText` | src/AdUserStatus/Services/ExcelService.cs:175-207 | fewer than two lines give no records; otherwise the header mapping decides, then each data line gives at most one record, in order |
| `ExcelService.ReadLines` | src/AdUserStatus/Services/ExcelService.cs:188-205 | the loop collects the record of each data line, in order |
| `ExcelService.PlaceFacts` | src/AdUserStatus/Services/ExcelService.cs:141-146 | a cell lands at its `ss:Index` when that lies beyond the end, otherwise right after the end; what was there stays and the gap is empty |
| `ExcelService.ReadRow` | src/AdUserStatus/Services/ExcelService.cs:137-147 | the cell loop builds the padded row |
| `ExcelService.IndexedRowLength` | src/AdUserStatus/Services/ExcelService.cs:139-147 | a row of cells with increasing `ss:Index` ends at the last index |
| `ExcelService.IndexedCellLands` | src/AdUserStatus/Services/ExcelService.cs:141-146 | an indexed cell's text is at column `ss:Index` |
| `ExcelService.IndexedGapsEmpty` | src/AdUserStatus/Services/ExcelService.cs:142 | every column that no indexed cell names is empty |
| `ExcelService.UnindexedCellsFollow` | src/AdUserStatus/Services/ExcelService.cs:141-146 | cells without `ss:Index` fill columns one after another |
| `ExcelService.XmlRecords` | src/AdUserStatus/Services/ExcelService.cs:151-171 | every record read from a worksheet has a non-blank short name or email and no state or category |
| `ExcelService.ReadSpreadsheetXml` | src/AdUserStatus/Services/ExcelService.cs:123-173 | no table gives no records; otherwise every row is padded and the padded rows are read |
| `ExcelService.ReadRows` | src/AdUserStatus/Services/ExcelService.cs:151-172 | no rows give no records; otherwise the header mapping decides, then each later row gives at most one record, in order |
| `ExcelService.EnabledCell` | src/AdUserStatus/Services/ExcelService.cs:67 | "Yes" exactly for enabled, "No" exactly for disabled, empty exactly for unknown |
| `ExcelService.EnabledCellInjective` | src/AdUserStatus/Services/ExcelService.cs:67 | the Enabled column keeps the account state: different states give different texts |
| `ExcelService.SheetRows` | src/AdUserStatus/Services/ExcelService.cs:55-69 | a sheet has the header row, then one row per record in order |
| `ExcelService.RecordRowReadBack` | src/AdUserStatus/Services/ExcelService.cs:64-67 | the short name and the state can be read back from a record's row |
| `ExcelService.AddSheet` | src/AdUserStatus/Services/ExcelService.cs:53-71 | the header goes on row 1 and record `k` on row `k + 2` |
| `ExcelService.ExportResults` | src/AdUserStatus/Services/ExcelService.cs:49-79 | four sheets named Enabled, Disabled, NotFound and External, each holding its category's records in order |
| `ExcelService.WorkbookRows` | src/AdUserStatus/Services/ExcelService.cs:73-76 | when every record has one of the four categories, the sheets together have one data row per record |
| `ExcelService.RecordOnItsSheet` | src/AdUserStatus/Services/ExcelService.cs:73-76 | every record appears below the header of the sheet named by its category |
| `HelpForm.Topic` | src/AdUserStatus/Services/HelpForm.cs:18-25 | the topic is never blank; a non-blank topic is kept, and anything else becomes `index.html` |
| `HelpForm.TopicIdempotent` | src/AdUserStatus/Services/HelpForm.cs:25 | choosing the topic again changes nothing |
| `HelpForm.StartPage` | src/AdUserStatus/Services/HelpForm.cs:89-91 | the page shown is the topic's page if it exists and the index page otherwise |
| `HelpForm.OpensInBrowser` | src/AdUserStatus/Services/HelpForm.cs:45-46 | a navigation leaves the help window exactly for an `http://` or `https://` address, ignoring case |
| `HelpForm.ExternalIgnoresCase` | src/AdUserStatus/Services/HelpForm.cs:66-68 | the external-link test does not depend on letter case |
| `HelpForm.FileUrisStayInside` | src/AdUserStatus/Services/HelpForm.cs:45-46 | a `file:` address, as the extracted pages use, stays in the help window |
| `HelpForm.Combine2` | src/AdUserStatus/Services/HelpForm.cs:144 | the combined path ends with the second part; an empty second part gives the first; a rooted second part replaces the first; otherwise the first is a prefix |
| `HelpForm.Combine` | src/AdUserStatus/Services/HelpForm.cs:133 | combining several segments gives a path that ends with the last one |
| `HelpForm.CombinePlain` | src/AdUserStatus/Services/HelpForm.cs:133 | plain folder names are combined into themselves joined with backslashes, with no separator at the end |
| `HelpForm.HelpRootFolder` | src/AdUserStatus/Services/HelpForm.cs:14-15 | the help folder lies under the temporary folder and ends with `ADUserStatusHelp` |
| `HelpForm.HelpSuffixSpec` | src/AdUserStatus/Services/HelpForm.cs:103-111 | a resource is a help resource exactly when `.Help.` occurs in its name, ignoring case; its help path is what follows the first occurrence |
| `HelpForm.HelpSuffixAfterPrefix` | src/AdUserStatus/Services/HelpForm.cs:110-111 | a resource named `Prefix.Help.path`, with no dot in the prefix, has help path `path` |
| `HelpForm.ShortPathIsFileName` | src/AdUserStatus/Services/HelpForm.cs:118-126 | a help path with at most one dot is a file directly in the help folder, under that name |
| `HelpForm.LongPathSplits` | src/AdUserStatus/Services/HelpForm.cs:127-135 | a help path with two or more dots goes to the folder of all pieces but the last two, as a file named by the last two; folder and file name put back together give the path |
| `HelpForm.ShortPathLocation` | src/AdUserStatus/Services/HelpForm.cs:137-144 | a help path with at most one dot is written as `root\path` |
| `HelpForm.LongPathLocation` | src/AdUserStatus/Services/HelpForm.cs:127-144 | a help path `a.b.c.ext` with plain pieces is written as `root\a\b\c.ext` |
| `HelpForm.ExtractionOf` | src/AdUserStatus/Services/HelpForm.cs:137-144 | an extraction belongs to its resource, and a file whose name is not rooted lies inside the folder created for it |
| `HelpForm.ExtractHelpFiles` | src/AdUserStatus/Services/HelpForm.cs:97-152 | the loop returns the help root and performs, in resource order, the extraction of every help resource with a stream |
| `HelpForm.ExtractionsMembers` | src/AdUserStatus/Services/HelpForm.cs:103-107 | an extraction is performed exactly for each resource whose name contains the marker and whose stream is present |
| `HelpForm.OnlyHelpResources` | src/AdUserStatus/Services/HelpForm.cs:103-104 | every file written comes from a resource whose name contains `.Help.` |

## Left out

- Case folding is ASCII only. `ToLowerInvariant` and `OrdinalIgnoreCase` fold every Unicode letter; the model folds `A`-`Z`.
- The LDAP connection itself is not modelled: the constructor, the bind with Negotiate/LDAPS, and reading the default naming context (src/AdUserStatus/Services/LdapService.cs:11-46). The search base is the `baseDn` of `Service`, and every search is the oracle `send`.
- Disposing the connection is not modelled.
- LdapService.GetAttr: attribute names are matched exactly, whereas `SearchResultAttributeCollection` ignores their case. The model looks each name up exactly as the source spells it. A first value that is null (`?.ToString()`) is not represented either: values are texts.
- LdapService.TryParseInt32: only `-` and `+` are accepted as signs, and trailing NUL characters are not allowed. `int.TryParse` also takes the current culture's negative and positive signs and ignores trailing NULs.
- `ReadUsers` and its choice of reader by file extension are not modelled (src/AdUserStatus/Services/ExcelService.cs:14-47).
- `ReadRealExcel` is not modelled (src/AdUserStatus/Services/ExcelService.cs:84-121). It reads `.xlsx` files through ClosedXML, a library outside the model.
- File reading (`File.ReadAllLines`, `XDocument.Load`) and XML parsing are not modelled: the readers take lines, or cells already parsed.
- ExcelService.ReadSpreadsheetXml: an `ss:Index` that fails to parse throws from the cast. The model takes the index as already parsed, so that failure is not represented.
- The file name in the missing-header message is not modelled; the error is `MissingEmailHeader`.
- ExcelService.ExportResults: the ClosedXML workbook, `AdjustToContents` and `SaveAs` are not modelled. Cells are texts, and a null display name or email is written as an empty cell.
- MainForm.ProcessUsers: the progress callback is always present. A null `progress` would only drop the reports.
- MainForm.ProcessUsers: cancellation is the index `cancelAt`; a token cancelled from another thread at an arbitrary moment is not modelled.
- MainForm.RunBatch: on cancellation the partial lists are not returned, because the source throws and discards them. `BucketsArePrefixes` states what they held.
- The WinForms UI around `ProcessUsers` is not modelled: file dialogs, the grid, the status text and the background task.
- MainForm.IsInternal: the case-insensitive `HashSet` is modelled as a set of lower-cased keys, with lookups lower-cased. The source adds the current domain as written, but its comparer makes that equivalent.
- The help window's WebView2 control, its settings and `Process.Start` are not modelled. What is modelled is the test that decides whether a navigation goes to the browser.
- HelpForm.StartPage: `File.Exists` is the parameter `fileExists`.
- HelpForm.ExtractHelpFiles: the resource streams are not modelled. Whether `GetManifestResourceStream` returns a stream is the parameter `hasStream`. Copying the bytes and overwriting existing files are not modelled.
- HelpForm.ExtractHelpFiles: `Directory.CreateDirectory` is represented by the folder recorded in each extraction.
- `HelpForm.CleanupExtractedHelp` (src/AdUserStatus/Services/HelpForm.cs:154-167) is not modelled. It only deletes the folder and ignores every error.
- HelpForm.Combine2: only Windows `Path.Combine` is modelled, with `\` and `/` as separators and a drive letter or leading separator as rooted. Invalid path characters are not checked.
