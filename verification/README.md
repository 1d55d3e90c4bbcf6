# ns-sitemap-py: the merge, score and cluster pipeline and the sitemap restructurer in Dafny

This project models the computational core of ns-sitemap-py, a sitemap
priority system. The system reads two CSV exports: search-console metrics
(clicks, impressions, ctr, position) and page-explorer metrics (importance,
depth, internal links, health). It then:

- keys each record by a normalised URL (`normalize_url`);
- merges the two sources field by field, the second source winning
  (`merge_and_deduplicate` and its inline copies);
- scores each merged record with `calculate_priority`, a clamped weighted
  sum;
- assigns each record one of six clusters with `assign_cluster`, a
  first-match substring rule chain;
- sorts the result by priority, highest first;
- groups the sorted result by cluster, each cluster becoming one
  `<cluster>-sitemap.xml` file.

A second script, test/pyscripts/restructure_sitemap_fixed.py, reads the
`url` entries of an existing sitemap and skips those without a `loc`. It
files each entry under one of six categories using a case-sensitive rule
chain with fixed priorities. It then builds one `urlset` element tree per
category and a `sitemapindex` tree naming the files.

Everything is modelled as pure functions over immutable values:

- strings are `seq<char>`;
- records are a URL plus a `map<string, real>` of metrics;
- scores are `real`, so every constant is exact;
- XML is an element-tree datatype.

Python's `float()` is a parameter of type `string -> Option<real>`, where
None stands for a ValueError. `urlparse` is modelled as a scheme and
network-location split that fails exactly on an unbalanced `[` or `]`.

Modules, one per file:

| module | models |
|---|---|
| `Wrappers` | Option and Result |
| `Strings` | `lower`, `strip`, `rstrip`, `in`, `replace(p, '')` |
| `Seqs` | distinctness, `Select` (the elements with a given key) |
| `Sorting` | Python's stable `sort(key=…, reverse=True)` |
| `Grouping` | the `defaultdict(list)` append loop |
| `UrlNormalize` | `normalize_url` |
| `Records`, `CsvRows` | the row step of `load_csv_data` |
| `Merge` | the merge |
| `Priority` | `calculate_priority` |
| `Cluster` | `assign_cluster` |
| `Pipeline` | the handler body, `test_system`, file names |
| `XmlTree` | elements, `find`, `findall('.//tag')`, default namespaces after `tostring` and `fromstring` |
| `NumberText` | `f"{p:.2f}"` and its inverse |
| `Categories` | `categorize_url` |
| `Collecting` | a loop that skips, aborts or takes a value per element |
| `Restructure` | extraction, tree building, `main` |

Behaviour worth knowing:

- `normalize_url` is not idempotent: `https://x.com/a//` loses one slash
  per call. When the parse fails, the fallback strips every trailing `/`.
- `https://x.com/` and `https://x.com` are different keys, because the
  bare root keeps its slash (`Merge.RootVariantsStayApart`).
- The restructurer writes `lastmod` only when the source entry had one,
  writes no `changefreq`, writes priorities with two decimals, and gives
  every index entry the fixed `lastmod` `2025-07-28T00:00:00Z`.
- The restructurer matches tags by their plain names, so it finds no
  `url` in a sitemap that declares the sitemap namespace (see
  "## Findings"). `Restructure.MainAsWritten` models `main` as written;
  `Restructure.RestructureSitemap` uses the corrected extraction, which
  matches local names.

## Model

| member | source | states |
|---|---|---|
| UrlNormalize.Normalize | api/generate.py:11-20 | On a successful parse the key has no `?` or `#`, is the lower-cased query-free URL, and is one character shorter exactly when that URL ends in `/` and is not the bare `scheme://netloc/`. When the parse raises, the key is the lower-cased URL with every trailing `/` stripped. The key never has an upper-case letter. |
| UrlNormalize.NormalizeHierarchical | api/generate.py:14-18 | For `scheme://host` + path with no query: the key is the lower-cased URL, minus its final `/` exactly when it ends in `/` and the path is not the bare `/`. |
| UrlNormalize.NormalizeIgnoresQuery | api/generate.py:15 | Appending any query or fragment to a URL that parses leaves its key unchanged. |
| UrlNormalize.DropOneSlash | api/generate.py:16-17 | A lower-case `scheme://host/path/` loses exactly its last slash. |
| UrlNormalize.NormalizeKeepsRoot | api/generate.py:16 | The bare root `scheme://host/` keeps its trailing slash. |
| UrlNormalize.NormalizeKeepsBareHost | test/pyscripts/sitemap_priority_system.py:66-75 | A lower-case `scheme://host` is its own key. |
| UrlNormalize.NormalizeSlashQuery | test_system_simple.py:13-22 | `scheme://host/path/?q` (or `#f`) has the same key as `scheme://host/path`. |
| UrlNormalize.NotIdempotent | api/generate.py:16-18 | On `scheme://host/path//` a second normalisation changes the key again: one slash is removed per call. |
| CsvRows.PickUrl | api/generate.py:29-31 | The URL is the first column of the chain whose cell is non-empty. None is returned exactly when no column of the chain has one. |
| CsvRows.LoadRow | test_system_simple.py:35-48 | A row is skipped exactly when no URL column has text. Otherwise the URL is the stripped picked cell and every expected column is present. A column holds `float(cell)` when the column exists and converts, and 0.0 otherwise. |
| CsvRows.LoadRows | api/generate.py:28-42 | Loaded entries are no more than the rows, and all carry exactly the expected columns. When every row has a URL, none is dropped. |
| CsvRows.LoadRowsCollects | api/generate.py:28-42 | The loop is the skip/take loop over the row step: a row without a URL is skipped, every other row contributes its loaded record. |
| CsvRows.LoadRowsKeeps | api/generate.py:28-42 | The loaded entries are, in row order, the loaded forms of exactly the rows that have a URL. |
| CsvRows.LinkColumnOnlyInWiderChain | test_system_simple.py:35 | A row whose URL sits only in a `Link` column is loaded by the wider chain and skipped by the three-column one. |
| Merge.AbsorbValid | api/generate.py:174 | One `update`: the key is added, all other keys' fields are unchanged, and each field of the key takes the new record's value when it has one and keeps the old one otherwise. |
| Merge.AbsorbAllSpec | test/pyscripts/sitemap_priority_system.py:83-89 | After a loop over records, every key's field equals its last value in the loop, or its earlier value when the loop never sets it. |
| Merge.MergeBy | test/pyscripts/sitemap_priority_system.py:81-95 | For any key function, the output has pairwise distinct urls, each one a key of some input. Every input's key is present, and every field equals its last value across both sources. The length is the number of distinct keys and at most the number of inputs. |
| Merge.MergeInFirstSeenOrder | test/pyscripts/sitemap_priority_system.py:81-95 | The merged records come in the order their keys are first seen in the first source followed by the second, the insertion order of `merged`. |
| Merge.MergeAndDeduplicate | test/pyscripts/sitemap_priority_system.py:79-95 | The same facts with `normalize_url` as the key: one record per distinct normalised URL, its url equal to that key. |
| Merge.MergeFieldSources | api/generate.py:171-177 | A field the second source sets for a key takes that value. Otherwise it keeps the first source's value, so a field only the first source has survives. |
| Merge.MergePairJoin | test_system_simple.py:168-174 | Two records with one key merge into one record with the key as url and the second record's fields overriding the first's. |
| Merge.MergePairApart | test_system_simple.py:168-174 | Two records with different keys stay two records, in input order. |
| Merge.RootVariantsStayApart | api/generate.py:171-177 | `scheme://host/` and `scheme://host` produce two merged records. |
| Merge.SlashAndQueryVariantsCollapse | api/generate.py:171-177 | `scheme://host/path/?q` and `scheme://host/path` produce one merged record with the second's fields overriding the first's. |
| Merge.KeysOfCard | test/pyscripts/sitemap_priority_system.py:81-95 | There are never more distinct keys than records. |
| Priority.ClickRateTerm | api/generate.py:58-60 | The term is 0 unless impressions are positive. It lies in [0, 0.3] when clicks do not exceed impressions, and is 0.3 when they are equal. |
| Priority.CtrTerm | api/generate.py:62 | The term is at most 0.3, non-negative for non-negative ctr, and exactly 0.3 once ctr reaches 1. |
| Priority.PositionTerm | api/generate.py:64-66 | The term lies in [0, 0.4). It is 0 for non-positive positions and for positions of 100 or more. |
| Priority.ImportanceTerm | api/generate.py:75 | The term is at most 0.4, non-negative for non-negative importance, and 0.4 from importance 100 on. |
| Priority.DepthTerm | api/generate.py:77-79 | The term lies in [0, 0.2). It is 0 for non-positive depths and depths of 10 or more. |
| Priority.LinksTerm | api/generate.py:81-83 | The term lies in [0, 0.2]. It is 0 without links and 0.2 from 100 links on. |
| Priority.HealthTerm | api/generate.py:85 | The term is at most 0.2, non-negative for non-negative health, and 0.2 from health 100 on. |
| Priority.BusinessScore | api/generate.py:88-106 | The business score lies in [0, 1], never exceeds the summed bonuses, and equals them when they do not pass 1. |
| Priority.BusinessCapBinds | api/generate.py:91-106 | When every bonus applies the bonuses sum to 1.3 and the score is capped at 1.0. |
| Priority.CalculatePriority | api/generate.py:109-111 | The priority lies in [0.1, 1.0]. It equals the weighted sum inside that range, 0.1 below it and 1.0 above it. |
| Priority.WellFormedScores | test_system_simple.py:60-124 | On well-formed metrics both source scores and the weighted sum lie in [0, 1], so only the lower clamp can bind. |
| Priority.ZeroMetricsScore | api/generate.py:49-111 | A record whose metrics are all zero or absent scores `max(0.1, 0.2 * business)`. |
| Priority.ZeroMetricsNoPatternFloor | api/generate.py:49-111 | A record with all metrics zero and a URL matching no business pattern scores exactly 0.1. |
| Priority.Monotone | api/generate.py:109-111 | The priority does not decrease when any of the three partial scores grows. |
| Priority.ClusterBusinessFloor | api/generate.py:94-104 | URLs clustered as tlds, blog or tools carry a business score of at least 0.3, 0.2 and 0.2. |
| Cluster.AssignCluster | api/generate.py:113-128 | The label is one of the six. Each cluster is chosen exactly when its rule matches the lower-cased URL and no earlier rule does, in the order blog, support/help, tld/domains, tools, seo. The result is misc exactly when no rule matches. |
| Cluster.BlogWins | api/generate.py:117-118 | A URL containing `/blog/` in any letter case is blog, whatever text is put before or after it. |
| Cluster.CaseInsensitive | api/generate.py:115 | Lower-casing the URL first does not change its cluster. |
| Cluster.ParseLabel | api/generate.py:113-128 | A label is read back exactly when it is one of the six. |
| Cluster.LabelRoundTrip | api/generate.py:113-128 | Reading a cluster's label back gives the cluster, and every one of the six labels reads back to a cluster with that label. |
| Cluster.NameInjective | test_system_simple.py:203-205 | Distinct clusters have distinct labels. |
| Sorting.SortDesc | api/generate.py:187 | The sort returns a permutation of its input, non-increasing in the key. |
| Sorting.InsertSorted | api/generate.py:187 | Inserting into a non-increasing list keeps it non-increasing. |
| Sorting.SortStable | test_system_simple.py:200 | Records with equal keys keep their relative order. |
| Sorting.SortKeepsSorted | test_system_simple.py:200 | An input that is already non-increasing is returned unchanged. |
| Grouping.GroupBySpec | test_system_simple.py:203-205 | Each key appears once, the keys are exactly those of the elements, and each list is the elements with that key in input order. The list sizes sum to the input length. |
| Grouping.GroupsInFirstSeenOrder | test_system_simple.py:203-205 | The keys come in the order in which each was first seen: a key before another is first seen at an earlier element. |
| Grouping.FirstIndex | test_system_simple.py:203-205 | The first position of a key: the element there has the key and none before it does, or the key occurs nowhere. |
| Grouping.GroupsPartition | test_system_simple.py:203-205 | Every element lands in the list of its own key and in no other. |
| Grouping.GroupsNonEmpty | test_system_simple.py:203-205 | No list is empty. |
| Pipeline.ScoreAndSort | api/generate.py:179-187 | The scored list is a permutation of the scored merged records, sorted by priority, highest first. |
| Pipeline.ScoreAndSortItems | api/generate.py:179-184 | Every result item is a merged record with the priority and cluster computed from it, its priority in [0.1, 1.0]. Distinct urls stay distinct. |
| Pipeline.ProcessUpload | api/generate.py:171-187 | The result is sorted by priority and has one item per distinct normalised URL. |
| Pipeline.ResultItems | api/generate.py:171-187 | No two result items share a url. Each is a merged record with its own priority and cluster. |
| Pipeline.ResultCoversInputs | test/pyscripts/sitemap_priority_system.py:83-89 | Every input record's normalised URL is the url of some result item. |
| Pipeline.HandleUpload | api/generate.py:189-196 | The reply counts both inputs and the distinct normalised URLs, which are at most the inputs. Its sample is a prefix of the result holding min(10, merged count) items, in non-increasing priority. |
| Pipeline.Sample | api/generate.py:195 | The sample is a prefix of the result of length min(10, len). |
| Pipeline.NonEmptyInputGivesResult | test_system_simple.py:188-190 | With at least one input row the result is not empty, so the failure branch is unreachable. |
| Pipeline.ClustersOfSorted | test_system_simple.py:200-205 | Grouping the sorted result has these properties: cluster sizes sum to the result length; every label is one of the six and every list is non-empty; each list stays in non-increasing priority; every item is in its own cluster's list and in no other. |
| Pipeline.SitemapFiles | test/pyscripts/sitemap_priority_system.py:138-141 | Each cluster contributes one file `cluster + "-sitemap.xml"`, in order, and the names are pairwise distinct. |
| NumberText.HundredthsRoundTrip | test/pyscripts/restructure_sitemap_fixed.py:68 | Reading back the two-decimal text of a number of hundredths gives that number. |
| NumberText.NatTextRoundTrip | test/pyscripts/restructure_sitemap_fixed.py:68 | Reading back the decimal text of a natural number gives that number. |
| NumberText.SplitAtPoint | test/pyscripts/restructure_sitemap_fixed.py:68 | Splitting at the first point finds one exactly when the text contains a point, and the two parts with the point between them rebuild the text. |
| Categories.Category.Priority | test/pyscripts/restructure_sitemap_fixed.py:37-51 | Every category's priority is one of 0.5, 0.6, 0.7, 0.8, 0.9, 1.0. |
| Categories.CategorizeUrl | test/pyscripts/restructure_sitemap_fixed.py:37-51 | Every URL is filed under one of the six files. With the site root deleted, each category is chosen exactly when its rule matches and no earlier rule does, in the order blog, support, seo, tlds, tools. The result is misc exactly when none does. |
| Categories.TldRegexIff | test/pyscripts/restructure_sitemap_fixed.py:46 | `^/domains/[^/]+$`, with `$` also matching before a final newline, accepts exactly the paths that are `/domains/` followed by a non-empty segment without `/`. |
| Categories.DomainDashIsSeo | test/pyscripts/restructure_sitemap_fixed.py:44-47 | `/domains/domain-x` fits the tld pattern but is never filed as a tld. It is seo unless a blog or support rule claims it first. |
| Categories.CaseSensitive | test/pyscripts/restructure_sitemap_fixed.py:40 | `/BLOG/x` is not filed as a blog: the rules see the path's letter case. |
| Categories.CategoryOfFile | test/pyscripts/restructure_sitemap_fixed.py:37-51 | A file name is read back exactly when it is one of the six. |
| Categories.FileRoundTrip | test/pyscripts/restructure_sitemap_fixed.py:37-51 | Reading a category's file back gives the category. |
| Categories.FileInjective | test/pyscripts/restructure_sitemap_fixed.py:85-87 | Distinct categories write distinct files, so entries sharing a file share a priority. |
| XmlTree.FindChildSpec | test/pyscripts/restructure_sitemap_fixed.py:19 | `find` returns None exactly when no child has the tag, and otherwise the first child that has it. |
| XmlTree.FindAllTwoLevel | test/pyscripts/restructure_sitemap_fixed.py:17 | On a root whose children carry the tag and only have leaf children without it, `findall('.//tag')` returns exactly the root's children. |
| XmlTree.FindAllAbsent | test/pyscripts/restructure_sitemap_fixed.py:17 | On a root whose children and grandchildren all lack the tag, `findall('.//tag')` finds nothing. |
| XmlTree.LocalNamesOfReparse | test/pyscripts/restructure_sitemap_fixed.py:15 | Writing a tree without namespace declarations inside a default namespace and reading it back only qualifies its tags: their local names give the tree back. |
| XmlTree.LocalNamesOfPlain | test/pyscripts/restructure_sitemap_fixed.py:15 | In a tree without qualified tags, taking local names changes nothing. |
| Restructure.ChildTextSpec | test/pyscripts/restructure_sitemap_fixed.py:19-20 | The child text is absent when no child has the tag. Otherwise it is present exactly when the first child with the tag has non-empty text, and it is that text. |
| Restructure.EntryOf | test/pyscripts/restructure_sitemap_fixed.py:19-31 | A kept entry's loc is the stripped `loc` text. Its lastmod is the stripped `lastmod` text, present exactly when that child has text. Its original priority is `float()` of the stripped `priority` text when that child has text, and absent otherwise. |
| Restructure.Judge | test/pyscripts/restructure_sitemap_fixed.py:17-35 | One loop step: an element is skipped exactly when it has no usable `loc`, aborts exactly when `float()` rejects its priority text, and otherwise yields its dictionary. |
| Restructure.ExtractFrom | test/pyscripts/restructure_sitemap_fixed.py:17-35 | Extraction yields no more entries than there are `url` elements, and a failure is always `float()`'s conversion error. |
| Collecting.CollectFails | test/pyscripts/restructure_sitemap_fixed.py:17-35 | A skip/abort/take loop fails exactly when some element aborts it. |
| Collecting.CollectKeeps | test/pyscripts/restructure_sitemap_fixed.py:17-35 | Without an abort, the loop succeeds and yields, in order, the value of every element it takes and nothing else. |
| Restructure.ExtractFails | test/pyscripts/restructure_sitemap_fixed.py:29-31 | Extraction fails exactly when some kept entry's priority text is rejected by `float()`. |
| Restructure.ExtractKeeps | test/pyscripts/restructure_sitemap_fixed.py:17-35 | Otherwise the result is, in order, the entries of exactly the `url` elements with a non-empty `loc`. Elements whose `loc` is missing or empty are skipped. |
| Restructure.UrlElementOf | test/pyscripts/restructure_sitemap_fixed.py:58-68 | A `url` element has two leaf children, or three when the entry has a lastmod. |
| Restructure.CreateSitemapXml | test/pyscripts/restructure_sitemap_fixed.py:53-68 | The root is `urlset` with the sitemap 0.9 `xmlns`, with one `url` child per entry, in order. |
| Restructure.UrlElementTexts | test/pyscripts/restructure_sitemap_fixed.py:60-68 | A written `url` element shows `find` the entry's loc, its lastmod exactly when it has one, and the priority text. |
| Restructure.ExtractUrlsSpec | test/pyscripts/restructure_sitemap_fixed.py:7-35 | With tags matched by local name, extraction fails exactly when some `url` element with a `loc` has a priority `float()` rejects. Otherwise it yields, in document order, the entries of exactly the `url` elements that have a `loc`. |
| Restructure.ExtractUrlsOfPlain | test/pyscripts/restructure_sitemap_fixed.py:17 | On a tree without qualified tags, matching by local name gives what the code as written gives. |
| Restructure.WrittenSitemapReadsEmpty | test/pyscripts/restructure_sitemap_fixed.py:15-17 | As written, a sitemap the script writes, once serialised and parsed, yields no entries, however many `url` elements it holds. |
| Restructure.SitemapRoundTrip | test/pyscripts/restructure_sitemap_fixed.py:7-70 | With tags matched by local name, serialising a written `urlset`, parsing it and extracting gives back every written entry in order, with its assigned priority as the original priority. |
| Restructure.BuildIndex | test/pyscripts/restructure_sitemap_fixed.py:113-124 | The index root is `sitemapindex` with the sitemap 0.9 `xmlns`, with one `sitemap` child per file, in order. Each child's `loc` is the site root, `/` and the file, and its `lastmod` is `2025-07-28T00:00:00Z`. |
| Restructure.IndexRoundTrip | test/pyscripts/restructure_sitemap_fixed.py:117-124 | Reading the files back out of a built index gives the files it was built from. |
| Restructure.ClusterSortKeepsOrder | test/pyscripts/restructure_sitemap_fixed.py:100-103 | A category's list is its entries in input order, and the descending sort leaves it unchanged because all its entries share one priority. |
| Restructure.MainAsWritten | test/pyscripts/restructure_sitemap_fixed.py:72-124 | `main` as written, with full-name tag matching; when it stops, it stops with `float()`'s error. |
| Restructure.MainAsWrittenOnOwnOutput | test/pyscripts/restructure_sitemap_fixed.py:15-17 | As written, `main` run on a sitemap the script writes, once serialised and parsed, succeeds with no category file, no sitemap and an index without entries. |
| Restructure.RestructureSitemapOfPlain | test/pyscripts/restructure_sitemap_fixed.py:15-17 | On a source without qualified tags, `main` with local-name matching gives exactly what `main` as written gives. |
| Restructure.RestructureSitemapSpec | test/pyscripts/restructure_sitemap_fixed.py:72-124 | With tags matched by local name, `main` stops with `float()`'s error exactly when some `url` element with a `loc` has an unreadable priority. Otherwise its files are distinct and each is one of the six, the sitemaps and the index cover exactly the files, and the file lists hold one entry per `url` element with a `loc`. |
| Restructure.FilesInFirstSeenOrder | test/pyscripts/restructure_sitemap_fixed.py:100-117 | The files, and so the index entries, come in the order in which each file's first entry was seen. |
| Restructure.RestructureSpec | test/pyscripts/restructure_sitemap_fixed.py:82-124 | The restructuring has these properties: each file appears once and is one of the six; the sitemaps are exactly the files; the category counts sum to the number of entries; the index has one `sitemap` per file with its `loc`; each file's sitemap lists exactly the entries filed there, in input order. |
| Restructure.EveryEntryFiledOnce | test/pyscripts/restructure_sitemap_fixed.py:82-88 | Every entry is filed under its own category's file and under no other. |

## Left out

- File, CSV and network I/O: opening files, `csv.DictReader` tokenising, writing sitemap and log files, the HTTP/CORS handler, multipart parsing and temporary files. Rows arrive as maps of cells, and results are values.
- `ET.fromstring` and `ET.tostring`: XML is an element tree, and the text between them is not modelled. Of the round trip, only the default namespace is: qualified tags, dropped `xmlns` attributes, empty text read as none. The XML declaration, escaping, prefixed names and `xmlns:prefix` declarations are left out.
- The restructurer's CSV log rows, its printed statistics and `datetime.now()` timestamps: output only. The response's timestamp is dropped from `Response`.
- `urlparse` details beyond the scheme and network-location split:
  - `geturl` rebuilding the URL from its parts, which rewrites an empty network location. For a scheme outside `uses_netloc` it drops the `//`: `foo:///a/` becomes `foo:/a/`, so the code's key is `foo:/a` where the model's is `foo:///a`. For some schemes without a network location it inserts `//`;
  - `;` parameters;
  - C0-control and tab stripping;
  - bracketed IPv6 validation beyond bracket balance;
  - the NFKC network-location check.
- Non-ASCII case mapping and whitespace: `lower` and `strip` are modelled on ASCII.
- `float()` accepting `nan` and `inf`, and IEEE-754 rounding: scores are `real`.
- The four-decimal priority and `changefreq` mapping of api/test.py: sample strings no code produces.
- The stub functions of test/pyscripts/sitemap_priority_system.py:99-121 and the typed loaders `load_gsc_data` and `load_page_explorer_data`. test/pyscripts/test_priority_system.py is a driver over the stubs.
- Restructure.SitemapRoundTrip: holds for the corrected extraction only; as written, the script reads its own output back as empty (`Restructure.WrittenSitemapReadsEmpty`). It also requires non-empty, already stripped `loc` and `lastmod` texts, and a `float()` that reads two-decimal texts exactly, because `strip()`, the empty-text skip and binary floating point would otherwise change the values read back.
- Restructure.RestructureSitemapSpec: describes `main` with tags matched by local name. As written, `main` finds no `url` in a source that declares the sitemap namespace, so there it neither fails nor files anything (`Restructure.MainAsWrittenOnOwnOutput`); the two agree on sources without qualified tags (`Restructure.RestructureSitemapOfPlain`).
- Restructure.ExtractFrom: a failure carries a fixed message, not the text of the ValueError, which quotes the rejected string.
- Priority.Monotone: compares the three partial scores rather than raw metrics, because the metrics' effects are not monotone (a larger position lowers the score).

## Findings

| source | as written | input that shows it | evidently intended | confidence | as-written member | corrected member |
|---|---|---|---|---|---|---|
| test/pyscripts/restructure_sitemap_fixed.py:15-20 | `root.findall('.//url')` and `find('loc')` compare full tag names. After `ET.fromstring`, a document whose root declares `xmlns="http://www.sitemaps.org/schemas/sitemap/0.9"` has tags `{http://www.sitemaps.org/schemas/sitemap/0.9}url`, so nothing matches. | any sitemap in the standard namespace, such as `<urlset xmlns="http://www.sitemaps.org/schemas/sitemap/0.9"><url><loc>https://www.namesilo.com/a</loc></url></urlset>`, which the script itself writes at :53-70: extraction gives `[]`, and `main` writes no category sitemap and an index without entries | read the `url` entries of a standard sitemap, matching tags by local name | high, from ElementTree's documented namespace handling; not executed | Restructure.MainAsWrittenOnOwnOutput | Restructure.SitemapRoundTrip |
