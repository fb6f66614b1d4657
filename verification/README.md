# cbsodata in Dafny

A model of the core of `cbsodata`, the Python client for the open-data
services of Statistics Netherlands (CBS). It covers:

- **Fetching resources.** The client reads OData resources through a paginated
  fetcher. Version 3 wraps each page as `{"value": [...], "odata.nextLink": url}`.
  Version 4 has `Singleton` and `EntitySet` kinds and an `@odata.nextLink`.
- **Requests and URLs.** It builds query parameters and URLs from loosely typed
  arguments, and it decides which tables of a dataset are downloaded.
- **Enriching observations.** The version-4 `get_data` enriches coded
  observation rows with the measure and dimension code tables and their group
  tables.
- **Labels.** The version-3, legacy and early `get_data` functions replace coded
  cells by the titles of their codes.
- **Catalogs.** The client classifies the errors of `get_catalog_info`. It also
  has `catalog` blocks, which override one option for the duration of a `with`
  statement.
- **Output.** The command-line interface prints results through a JSON
  outputter and a fixed-width text outputter.

The HTTP layer is a parameter: a total function from a request (URL plus
parameters) to either a decoded JSON body or a failure status. Following
continuation links is a recursion bounded by `fuel`, the largest number of
requests a call may send. Everything else is pure functions over immutable
values. The modules are:

- `Values`: JSON values, rows, code lookups and the errors the client raises.
- `Text`: the string helpers.
- `Settings`: the options objects and the `catalog` blocks.
- `Query`: `_select`, the parameter maps and the table URLs.
- `Pagination`: the version-3 envelope, the fetch loop, and the version-4 parser and fetcher.
- `Metadata`: `get_metadata`, `get_observations`, `_download_metadata`, `download_data` and `get_info`.
- `Enricher`, `EnrichExample` and `Data4`: the version-4 `get_data`.
- `Labels`: the label substitution of the older `get_data` functions.
- `Catalog`: `get_catalog_info`.
- `Outputter`: `cbsodata/__main__.py`.

## Model

| member | source | states |
|---|---|---|
| Values.IndexBy | cbsodata/cbsodata3.py:505-506 | A code index has exactly the identifiers found in the rows. Each identifier selects a row of the table that carries that identifier. |
| Values.IndexByLast | cbsodata/cbsodata3.py:505-506 | When an identifier occurs more than once, the last row carrying it wins. |
| Text.SplitJoin | cbsodata/cbsodata3.py:240-241 | Splitting a comma-joined column list at the commas gives the list back, provided no name contains a comma. |
| Query.Select | cbsodata/cbsodata3.py:226-243 | `None` stays absent and a string passes through unchanged. A non-empty list of comma-free names becomes a string that splits back into the same list. |
| Query.SelectNormalizes | cbsodata.py:103-117 | A list of column names and its comma-joined string give the same `$select`. |
| Query.SelectParams | cbsodata/_cbsodata.py:63-74 | The early client's parameter map holds `$select` exactly when the subset is truthy. Its value is then the joined subset, and the map holds no other key. |
| Query.MetadataParams | cbsodata/cbsodata3.py:155-161 | `$format=json` is always sent. `$select` is sent exactly when the selection is truthy, and `$filter` exactly when the filter is non-empty; the filter text is sent unchanged. No other key appears. `cbsodata.py` builds the same parameters. |
| Query.ObservationsPayload | cbsodata4.py:312-317 | `$filter` is sent only for a truthy filter. `$top` and `$skip` are sent exactly when they are given, even when the value is 0, and carry the given values. |
| Query.TableUrlScheme | cbsodata/cbsodata3.py:128-144 | A table URL starts with `https://` exactly when the `use_https` option is set. |
| Query.ExplicitCatalogOverrides | cbsodata/cbsodata3.py:124-134 | Passing `catalog_url` explicitly gives the same URL as setting the option to that value. |
| Query.TableUrlInjective | cbsodata/cbsodata3.py:128-144 | Two tables of one catalog never share a URL. |
| Query.LegacyTableUrl | cbsodata.py:42-47 | The legacy table URL is the version-3 URL with plain HTTP and the default catalog; `cbsodata/_cbsodata.py` builds the same URL. |
| Query.DatasetUrlInjective | cbsodata4.py:253-255 | Two datasets of one catalog never share a dataset URL. |
| Query.ObservationsUrl | cbsodata4.py:305-311 | The observations URL is the dataset URL followed by `Observations`. With `catalog=None` the catalog option is used, as for the dataset URL. |
| Settings.WithCatalogUrl | cbsodata/cbsodata3.py:519-538 | The block runs with the catalog URL overridden and its outcome is passed through. The old URL is restored only when the block finishes normally. `use_https` has no effect. |
| Settings.WithCatalog | cbsodata4.py:690-706 | The block runs with the catalog overridden and its outcome is passed through. The old catalog is restored only when the block finishes normally, and the OData URL is the one the block left. |
| Settings.ReadOnlyBlockRestores | cbsodata4.py:690-706 | A block that only reads the options and succeeds leaves them exactly as they were. |
| Pagination.V3Page | cbsodata/cbsodata3.py:180-187 | A page's rows are its `value` array. There is a next page exactly when `odata.nextLink` is present and not null, and the link is then that URL. A missing `value` is a `KeyError`. |
| Pagination.Paginate | cbsodata/cbsodata3.py:167-189 | The loop sends at most `fuel` requests. Its first request is the given one, and every later request carries the `later` parameters. A success sent at least one request. |
| Pagination.PaginateFollowsChain | cbsodata/cbsodata3.py:170-189 | For any finite link chain the server answers, the download is the in-order concatenation of every page's `value`. It sends exactly one request per page of the chain. The legacy copies run the same chain and re-send the first parameters on every page. |
| Pagination.SuccessMeansEveryPageAnswered | cbsodata/cbsodata3.py:170-181 | All or nothing: a successful download had every request it sent answered successfully. |
| Pagination.ParseOData4 | cbsodata4.py:119-144 | A `Singleton` succeeds exactly on an object with `@odata.context`, and yields the object without that key and no link. An `EntitySet` succeeds exactly on an object with `value`, and yields that value plus the raw `@odata.nextLink` when present. Any other kind is an error. |
| Pagination.LinkTarget | cbsodata4.py:157 | A falsy link (absent, null or empty) ends the download. A link is followed exactly when it is a non-empty string. |
| Pagination.Request4 | cbsodata4.py:147-161 | A successful `Singleton` request yields an object without `@odata.context`. |
| Pagination.Request4FollowsChain | cbsodata4.py:147-161 | For any finite `EntitySet` link chain whose requests all re-send the first parameters, the result is the array of every page's rows, in page order. |
| Pagination.SingletonSinglePage | cbsodata4.py:131-133 | A `Singleton` depends only on the answer to its one request and never follows a link. |
| Metadata.Assemble | cbsodata4.py:262-274 | The assembled metadata holds exactly the names of the index entries that end in `Groups` or `Codes` or are `Dimensions` or `Properties`. Every index entry must have a string name. |
| Metadata.AssembleTables | cbsodata4.py:262-274 | Each kept resource is the download of the last index entry with that name, from the URL and with the kind that entry declares. |
| Metadata.GetMetadata | cbsodata4.py:253-276 | An HTTP failure on the dataset index is reported with the index URL and its status. On success the keys are the kept resource names of some index. |
| Metadata.GetObservations | cbsodata4.py:279-323 | The request goes to the observations URL, with `None` read as the catalog option, and carries the observation payload. When that first request fails, the result is `RemoteFetchError` with that URL and the status. |
| Metadata.GetObservationsFollowsChain | cbsodata4.py:305-323 | When the server answers with a finite chain of pages, each re-sending the payload, the result is the rows of every page in page order. The chain is addressed with the catalog spelled out, so `catalog=None` means the catalog option. |
| Metadata.DownloadMetadata | cbsodata/cbsodata3.py:147-189 | The first request goes to the table URL plus the resource name, with the `$format`, `$select` and `$filter` parameters. The version-3 client sends every later request with no parameters, and the older clients (`cbsodata.py`, `cbsodata/_cbsodata.py`) re-send the first ones. |
| Metadata.RemoveFirst | cbsodata/cbsodata3.py:293-294 | `list.remove` fails exactly when the name is absent. Otherwise it drops the first occurrence and keeps everything else in order. |
| Metadata.RemoveFirstCount | cbsodata/cbsodata3.py:293-294 | The kept names plus the removed one are the index names as a multiset. |
| Metadata.TableNames | cbsodata/cbsodata3.py:290 | On success there is one name per index entry, and it is that entry's `name` field. |
| Metadata.DownloadTable | cbsodata/cbsodata3.py:299-312 | The caller's `select` and `filters` reach only the `TypedDataSet` and `UntypedDataSet` downloads. |
| Metadata.DownloadTables | cbsodata/cbsodata3.py:296-314 | On success the result maps exactly the listed names, each to its own table's download. |
| Metadata.DownloadData | cbsodata/cbsodata3.py:282-320 | A failed index download is passed through. An index without the name `typed` selects fails as `list.remove` does. On success each downloaded table is its own name's download. |
| Metadata.DownloadedNames | cbsodata/cbsodata3.py:282-320 | A successful `download_data` found the name `typed` selects in the index. It downloads exactly the index names minus one occurrence of that name. |
| Metadata.TypedFlagDropsNamedTable | cbsodata/cbsodata3.py:292-294 | When each data-set table is listed once, the table named by the `typed` flag is not downloaded and the other one is. |
| Metadata.GetInfo | cbsodata/cbsodata3.py:406-413 | `get_info` fails exactly when the `TableInfos` download fails. Otherwise it returns `None` exactly for an empty table, and the first row otherwise. The `cbsodata.py` copy behaves the same. |
| Enricher.Overlay | cbsodata4.py:450-454 | The overlaid row has the row's keys plus the selected record's keys, and loses the code field exactly when asked to. The record's value wins a key clash. An unknown code leaves the row unchanged apart from the dropped key. |
| Enricher.Prefixed | cbsodata4.py:468-470 | The renamed record has exactly the prefixed variable names, each holding the code's value for that variable. |
| Enricher.CodeRecord | cbsodata4.py:468-478 | A code's record holds its prefixed variables. It adds the prefixed `GroupID` exactly when group labels are wanted, and that value wins a clash. |
| Enricher.CodeLookup | cbsodata4.py:463-478 | The code lookup is keyed by exactly the codes' identifiers. Each identifier maps to the record of a code carrying it. |
| Enricher.CodeLookupLast | cbsodata4.py:463-478 | A duplicated identifier maps to the record of its last code. |
| Enricher.CodeJoinFields | cbsodata4.py:463-484 | After a code join, a field named after the code plus a suffix is present exactly when the record or the row supplies it. The code field itself is dropped when asked to. |
| Enricher.JoinMeasures | cbsodata4.py:460-501 | The measure step keeps one row per observation. |
| Enricher.MeasureKeptIffIncluded | cbsodata4.py:460-501 | After the measure step a row keeps `Measure` exactly when `include_measure_code_id` is set, also when no measure label is joined. |
| Enricher.NoneMeasureVarsFail | cbsodata4.py:460-470 | `measure_vars=None` with measure group labels wanted fails as soon as the measure code table has a row, whatever the observations. |
| Enricher.JoinDimension | cbsodata4.py:510-556 | The group join of a dimension runs only when group labels are wanted and the `<dim>Groups` resource exists. Otherwise only the code join happens. |
| Enricher.DimensionKeptIffIncluded | cbsodata4.py:528-556 | After its joins a row keeps the dimension's code field exactly when `include_dimension_code_id` is set. |
| Enricher.JoinDimensionsAppend | cbsodata4.py:510-556 | Joining two runs of dimensions one after the other gives the same result as joining them at once. The first fails exactly when the second does. |
| Enricher.DropDimensions | cbsodata4.py:558-566 | Without dimension labels or code ids, every row loses exactly the dimension fields. |
| Enricher.DropStep | cbsodata4.py:558-566 | The drop branch succeeds exactly when every `Dimensions` entry has an `Identifier` and, when there is at least one observation, those identifiers are distinct strings held by every observation. On success each observation keeps exactly the fields no entry names, with their values unchanged. With no observations nothing is deleted, so repeated or non-string identifiers do no harm. |
| EnrichExample.RepeatedDimensionDrop | cbsodata4.py:558-566 | Two `Dimensions` entries both named `A`, under a config that joins nothing and drops dimension ids: with no observations the enricher succeeds and returns `[]`, and with one observation holding `A` it fails, because the second deletion finds no field. |
| Enricher.NoneDimensionVarsFail | cbsodata4.py:504-520 | `dimension_vars=None` with dimension group labels wanted fails as soon as any dimension's code table has a row. |
| Enricher.Enrich | cbsodata4.py:460-568 | The enricher returns one row per observation. |
| Enricher.EnrichSplit | cbsodata4.py:460-568 | Rows are enriched independently. Enriching two batches gives the rows of enriching them together, and the whole fails exactly when a batch fails. |
| EnrichExample.ExampleEnrichment | cbsodata4.py:326-336 | A sample observation under the default arguments keeps `Measure` and gains `MeasureTitle`, `MeasureUnit`, `MeasureGroupID` and `MeasureGroupTitle`. With both measure ids switched off it loses `Measure` and `MeasureGroupID`. |
| Data4.ToRows | cbsodata4.py:480-484 | Observations convert to rows exactly when they form a list of objects. The rows are those objects, one for one. |
| Data4.ToTables | cbsodata4.py:464 | The joins see exactly the metadata resources that are lists of objects, with their rows unchanged. An empty object or an empty string is seen as an empty table, because iterating it visits nothing. |
| EnrichExample.EmptyGroupTable | cbsodata4.py:485-495 | With `MeasureGroups` downloaded as an empty object, the group join still runs with an empty lookup. Under `include_measure_group_id=False` the coded row loses `MeasureGroupID`. A row whose code supplies no `MeasureGroupID` makes the step fail, as the `KeyError` in `_lookup_dict` does. |
| Data4.GetData4 | cbsodata4.py:438-568 | The observations are downloaded first and the metadata second, and the error of the first failing download is passed through. Observations that are not a list of objects then give `TypeError`. A success has one enriched row per observation. When both downloads succeed, the call succeeds exactly when the joins raise nothing, and it then returns the enriched rows. |
| Labels.CodeIndex | cbsodata/cbsodata3.py:505-506 | A code table's index has exactly its `Key` values. Each key maps to a row of the table carrying it. |
| Labels.LabelCell | cbsodata/cbsodata3.py:510-514 | A cell becomes its code's `Title` when the row has the column and the code has a title. Otherwise, and for every other cell, nothing changes. |
| Labels.LabelRowInAnyOrder | cbsodata/cbsodata3.py:503-514 | The inner loop gives the same row whatever order it visits the columns in. |
| Labels.DataSet | cbsodata/cbsodata3.py:490-493 | The labelled data set is the typed one when it was downloaded, else the untyped one. It fails only when neither is present, and then with `KeyError('UntypedDataSet')`, the key the `else` branch indexes. |
| Labels.CodeIndexLast | cbsodata/cbsodata3.py:505-506 | The dictionary built from a code table maps a key to the last row carrying it. |
| Labels.LabelDataCell | cbsodata/cbsodata3.py:495-516 | One cell of a successful labelling. A column in the excluded five, or one with no downloaded table, never changes. A column with a table takes the `Title` of the last code row whose `Key` equals the cell. It keeps the cell when no code row matches or the matching row has no `Title`. |
| Labels.LabelData | cbsodata/cbsodata3.py:490-516 | Labelling fails exactly when the data set is missing, a code table lacks `Key`, or a non-object row meets a column to look up. A success keeps every row's keys and changes only looked-up columns. |
| Labels.LabelDataAnyOrder | cbsodata/cbsodata3.py:503-514 | The result does not depend on the order of `list(set(...))`. |
| Labels.GetData | cbsodata/cbsodata3.py:478-516 | `get_data` passes through `download_data`'s error, or labels its tables. The `cbsodata.py` copy is the same. |
| Labels.LabelDataStrict | cbsodata/_cbsodata.py:197-221 | The early substitution has no `try`. It succeeds exactly when the data set exists, every code table row has a `Key`, and, if a column is looked up, every row is an object with every looked-up column whose code has a title. It fails with the download's error, `KeyError("Key")`, `TypeError` for a row that is not an object, or a `KeyError` in the lookup. |
| Labels.StrictAgreesWithGuarded | cbsodata/_cbsodata.py:210-219 | Where the early client succeeds it agrees with the guarded one, and every looked-up cell is its code's title. |
| Labels.GetDataEarly | cbsodata/_cbsodata.py:181-221 | The early `get_data` passes through the download error, or applies the strict substitution. |
| Catalog.MatchDatasetId | cbsodata4.py:616-617 | A second, loop-based formulation of the test: the greedy, backtracking match succeeds exactly when the name starts with five or six ASCII digits followed by three ASCII capitals. |
| Catalog.GetCatalogInfo | cbsodata4.py:605-632 | A successful lookup returns the catalog object without `@odata.context`. A refused lookup becomes "seems to be a dataset identifier", "not found" on 404, or the original HTTP error. |
| Catalog.CatalogErrorClassification | cbsodata4.py:613-632 | A refused lookup of a name shaped like a dataset id is always reported as such, whatever the status. Any other name gets "not found" for 404 and otherwise the server's error. |
| Catalog.DatasetShapes | cbsodata4.py:616-619 | `83765NEDx` is classified as a dataset id. The default catalog `CBS` and `8376NED`, with only four digits, are not. |
| Outputter.Truncate | cbsodata/__main__.py:49-51 | `data_obj[0:max_rows]` keeps a prefix. `None` keeps everything, a non-negative bound keeps `min(bound, n)` rows, and a negative bound keeps `max(n + bound, 0)`. |
| Outputter.JsonOutputter | cbsodata/__main__.py:35-43 | One JSON line per kept row, in order. |
| Outputter.JsonOutputterPrefix | cbsodata/__main__.py:38-43 | Cutting at `max_rows` prints a prefix of the uncut output, for every bound. |
| Outputter.JsonOutputterAppend | cbsodata/__main__.py:42-43 | Each row is printed on its own line regardless of the others. So the uncut output of two batches is the first batch's lines followed by the second's. |
| Outputter.DedupIsSet | cbsodata/__main__.py:54-64 | The column list holds every key of every row exactly once. |
| Outputter.DedupFirstSeen | cbsodata/__main__.py:54-64 | Columns appear in the order their keys are first seen. |
| Outputter.MaxLenIsMaximum | cbsodata/__main__.py:55-61 | A column's longest value bounds every value under it and is one of them, or 0 when there is none. |
| Outputter.WidthIsMaximum | cbsodata/__main__.py:53-69 | A column's width is at least its name's length and every value's length. It equals one of them. |
| Outputter.LongestValues | cbsodata/__main__.py:53-61 | The first loop finds exactly the first-seen columns and, for each, the longest value under it. |
| Outputter.MeasureColumns | cbsodata/__main__.py:53-69 | The two loops give exactly the column list and each column's width. |
| Outputter.LookupFinds | cbsodata/__main__.py:86 | `d[col]` finds a value exactly when the row has the key, and the value is one the row holds under it. |
| Outputter.LookupDict | cbsodata/__main__.py:86 | For a row with each key once, as a Python dict has, `d[col]` gives `v` exactly when the row holds `v` under `col`. |
| Outputter.PadJoinAligned | cbsodata/__main__.py:71-94 | Every column but the last sits at the sum of the earlier widths plus two each, and spans its own width plus two. |
| Outputter.PadJoinLength | cbsodata/__main__.py:71-94 | A line ends right after its last column's text. |
| Outputter.TableHeaderAligned | cbsodata/__main__.py:71-78 | The header shows each column's upper-cased name, left-justified in that column's slot. |
| Outputter.TextOutputter | cbsodata/__main__.py:46-94 | One column line, then one line per kept row, built by the data-line loop as written. The column line is the aligned header of the kept rows. |
| Outputter.ResetForgets | cbsodata/__main__.py:84-88 | A missing cell before the last column throws away everything the loop built before it: the line restarts as that column's blank space. |
| Outputter.TextLineResets | cbsodata/__main__.py:80-94 | A printed row that lacks a column before the last is what the loop builds from the next column on, starting from blank space. |
| Outputter.TextLineAgreesWhenComplete | cbsodata/__main__.py:80-94 | A printed row that holds every column but the last is the line of the corrected layout. |
| Outputter.TextRowAlignedWhenComplete | cbsodata/__main__.py:80-94 | In such a row each cell but the last sits in its column's slot under the header name, padded to the column width. |
| Outputter.AsWrittenAgreesWhenComplete | cbsodata/__main__.py:80-94 | A row with every column but the last gets the same line from the loop as written and from the corrected layout. |
| Outputter.ResetDropsEarlierCells | cbsodata/__main__.py:84-88 | For rows `{a:1,b:2,c:3}` then `{a:1,c:3}`, the second row prints as `"   3"` as written, losing its `a`, where the aligned line is `"1     3"`. |

## Left out

- HTTP, sessions, proxies, `raise_for_status` and JSON decoding are left out. The server is an abstract function from a request to a decoded body or a failure status, and only the status reaches the errors.
- Logging, `print`, saving tables to `dir`, argument parsing and the command dispatch of `cbsodata/__main__.py` are left out. The outputters return their lines instead of printing them.
- Floating-point values are not modelled. Numbers are integers, and a float `max_rows` is not modelled.
- Python's `str()` of a cell is not modelled: the outputters receive each row as ordered `(key, text)` pairs.
- `str.upper` and the `\d` class are modelled on ASCII only.
- JSON values are immutable. The in-place updates of the source (`del`, `data.extend`, assigning into `data[i]`) become fresh values. A row shared between two places is therefore never changed through the other.
- Only unbounded loops are bounded: link chains end after `fuel` requests with `LinkChainTooLong`. A cyclic chain that the source would follow forever is not modelled.
- Pagination.V3Page fails with `TypeError` for a page whose `value` is not a list. In the source `list.extend` accepts any iterable, such as a string or an object, and fails only on a number, boolean or null.
- Pagination.Request4 fails with `TypeError` when a page with a link and the rest of its chain are not both lists. In `_odata4_request` a page that is not a list has no `extend` and raises `AttributeError`, and a rest that is another iterable is appended item by item.
- Data4.ToTables treats a metadata resource that is neither a list of objects nor an empty object or string (a `Singleton`, such as `Properties`) as absent from the joins. The joins reach `MeasureCodes`, `MeasureGroups`, `Dimensions`, `<dim>Codes` and `<dim>Groups` by name. When one of them is a non-empty object or string, a list holding a non-object, or a number, boolean or null, Python raises `TypeError` while iterating it. The model then fails with `JoinFailed` for the code tables and `Dimensions`, but skips the join for a group table, leaving `<X>GroupID` in place.
- Labels.LabelData reports a code table row that is not an object with `Key` as `KeyError("Key")`. Python raises `KeyError` for a missing `Key` but `TypeError` for a row that is not an object. In both the error escapes before any row is labelled.
- Labels.LabelDataStrict reports `TypeError` when any row is not an object, and a `KeyError` otherwise. Python meets the rows in order, so the first failing row decides between the two.
- Values.IndexBy, and Labels.CodeIndex and Enricher.CodeLookup built on it, key codes by JSON value equality. Python keys dictionaries by hash equality, so `True` and `1` are one key there and two here. An array or object used as a code raises `TypeError` in Python, where the model keys on it.
- Labels.LabelCell looks a cell up by JSON value equality. A cell holding an array or object raises `TypeError` in Python; the model finds no code for it and leaves it alone.
- Enricher.Overlay looks a row's code up by JSON value equality. A code holding an array or object raises `TypeError` in Python; the model finds no record for it and leaves the row alone.
- Data4.GetData4 requires the observations to be a list of objects even when the arguments run no join and no drop (no labels wanted and both code ids kept). Python then returns the observations unchanged, whatever they are. The enricher's `KeyError` and `TypeError` are one error, `JoinFailed`, and which one Python would raise first is not modelled.
- Enricher.Enrich states only the length in its own contract. What the rows hold is stated per step, by MeasureKeptIffIncluded, DimensionKeptIffIncluded, CodeJoinFields, JoinDimensionsAppend, DropDimensions and EnrichSplit.
- Enricher.JoinMeasures states only the length in its own contract. The kept `Measure` field and the joined names are stated by MeasureKeptIffIncluded and CodeJoinFields.
- Metadata.GetMetadata states only the shape of its keys. Which table each key holds is stated on Assemble and AssembleTables.
- Pagination.Request4 states only the Singleton shape in its own contract. The EntitySet behaviour is stated by Request4FollowsChain.
- Outputter.TextOutputter states the line count and the column line in its own contract. Its data lines are stated on the kept rows by Outputter.TextLineResets, Outputter.TextLineAgreesWhenComplete and Outputter.TextRowAlignedWhenComplete.
- Metadata.TableNames fails with `TypeError` on an index entry whose `name` is not a string, before `remove` runs. Python keeps any value in the name list. It raises `ValueError` first when the typed or untyped name is missing. Otherwise it fails only when the name is joined into a URL, so the downloads of the tables listed before that entry happen first.
- Metadata.DownloadMetadata fails with `RemoteFetchError` on an error status for every client. `cbsodata.py` (lines 68-73) and `cbsodata/_cbsodata.py` (lines 34-39) never call `raise_for_status`, so there an error status surfaces as the `KeyError('value')` of an error body or as a JSON decoding error.
- Metadata.DownloadTable states only where `select` and `filters` go. Its rows are those of DownloadMetadata.
- The `typed` flag of `download_data` removes `UntypedDataSet` when false, so the untyped call downloads the typed table. This is modelled as written (Metadata.TypedFlagDropsNamedTable).
- Catalog and dataset listing (`get_table_list`, `get_catalog_list`, `get_dataset_list`, `get_dataset_info`, `get_meta`) are single calls of the modelled fetchers and have no members of their own.
- The proxy options and the deprecated `proxies` setter only reach the transport and are not modelled.

## Findings

| source | as written | input that shows it | evidently intended | confidence | as-written member | corrected member |
|---|---|---|---|---|---|---|
| cbsodata/__main__.py:84-88 | When a row lacks a column other than the last, the `except KeyError` branch assigns blank padding to `line` instead of appending it. Every cell printed before it is lost. | rows `[{"a":1,"b":2,"c":3}, {"a":1,"c":3}]`: the second data line is `"   3"` | append the blank padding, giving `"1     3"` with every cell under its header | not executed | Outputter.DataLineAsWritten, Outputter.ResetDropsEarlierCells | Outputter.DataLine, Outputter.TableRowAligned |
