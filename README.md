# idea-netcdf-plugin: the flattened table view, its paging and the record iterator, in Dafny

The plugin shows n-dimensional netCDF variables as one flat table. The
table's rows are the cartesian product of the dimension ranges, in
row-major order (last axis fastest). Each column is one of four kinds:
- a coordinate index;
- a plain variable;
- a time variable;
- a fixed-length character-array string.

A cell read looks the row's coordinate tuple up in the table's row index. It
projects the tuple through the column's axis map into an origin, and reads
the variable at that origin with a one-element shape.

The repository holds three generations of this table, and this project
models all three as they are written:

- **tools/TableView.kt** (`TableViews`, generation `Tools`). The table is
  keyed on each variable's full dimension list. It runs its own `isTime` and
  uses Long index columns.
  - The duplicate-name check runs before the coordinate columns are added.
    So a first variable that is its own coordinate variable is labelled twice
    (`DuplicateLabel`).
  - `isTime` lower-cases the units without a null check. So a unitless
    "time" coordinate throws (`UnitlessTimeThrows`).
  - Array-string reads get an origin one entry longer than their shape
    (`ToolsStringOriginTooLong`).
- **DataModel.kt** (`DataModels`, generation `Model`). The table is keyed on
  the public dimensions, uses the `Variable.kt` properties and has Int index
  columns. The duplicate check runs last (`OwnCoordinateOnce`).
- **viewer/DataModel.kt** (`Viewer`). It has two parts:
  - A `NetcdfReader` whose initializer adds all names and then builds the
    index once. `LoadedIsSetData` proves it loads the same table as
    DataModel.kt's `setData`.
  - A paged `DataModel` over that reader.

All three generations test congruence with
`setOf(dimensions) == setOf(variable.dimensions)`. Each side of that test is a
one-element set wrapping a list, so it holds only when the two ordered
dimension lists are equal (`CongruentIsListEquality`,
`CongruenceIsOrderSensitive`). The doc comments promise "irrespective of
order"; the model follows the code.

The other modules:

- `Paging` (viewer/Paging.kt): the page arithmetic of `PageableTableModel`:
  - the page count is the ceiling of rows over the page size;
  - the page number is clamped;
  - the last page holds the remaining rows;
  - page rows translate to data rows.

  It also proves that every data row sits on exactly one page. The paged
  viewer `DataModel` uses the same functions.
- `Variables` (Variable.kt): the variable properties `publicDimensions`,
  `isArrayString`, `isTime`, `calendar`, `dateUnits`, `typeString` and
  `nameEscaped`.
- `Readers` (tools/NetcdfReader.kt): the record iterator, which has four
  parts:
  - `open` and `close` on a reader that holds at most one file.
  - `variables`, keyed by full name as an insertion-ordered map.
  - `dimensionValues`: the index fallback, the rank-1 check, and the copy
    loop.
  - `read`: one record per tuple of the cartesian product. Each record pairs
    the caller's names with the selected variables in the file's order
    (`RecordDataByPosition`, `MisalignedSelection`).
- Shared helpers:
  - `Columns`: column construction and cell reads, with a `Generation`
    parameter where the generations differ.
  - `Tables`: the table state, its invariant `Wf` and the add steps.
  - `CartesianProducts`: `cartProd`, proved to be the row-major
    decoding of positions.
  - `Netcdf`: the parts of the netCDF library the core drives, as data.
  - `Strings`, `Wrappers`, `Errors`: support modules.

Exceptions are values of `Errors.Error`, carried in `Result` and `Outcome`.

Each class that the source mutates is a Dafny class:
- `TableView`;
- DataModel.kt's `DataModel`;
- `PageableTableModel`;
- the paged viewer `DataModel`;
- `NetcdfReader`.

Each method is proved against a function of the old state:
- `Added` and `AddedAll` for `TableView`;
- `AddedVariable` and `AddedVariables` for DataModel.kt's `DataModel`;
- `Loaded` for the viewer's reader;
- `ReadRecords` and `DimensionValuesOf` for `NetcdfReader`.

Those functions carry the lemmas: the invariant each operation keeps, the
labels, the index, the bounds of every cell read, and the agreement between
generations.

## Model

| member | source | states |
|---|---|---|
| Strings.LowerPointwise | src/main/kotlin/Variable.kt:61 | lower-casing keeps the length and maps each character to its ASCII lower case |
| Strings.LastSegmentIsSuffix | src/main/kotlin/Variable.kt:68 | `split("/").last()` is the suffix after the last '/', holds no '/', and is the whole string when there is no '/' |
| Strings.NatToStringRoundTrip | src/main/kotlin/software/mdklatt/idea/netcdf/tools/NetcdfReader.kt:76 | the decimal text of an index value reads back as that number, so distinct indexes get distinct texts |
| Netcdf.FindVariable | src/main/kotlin/software/mdklatt/idea/netcdf/tools/TableView.kt:151 | a variable is found only if the file has it under that name; null exactly when no variable has the name |
| CartesianProducts.CartProdLength | src/main/kotlin/software/mdklatt/idea/netcdf/tools/TableView.kt:155-156 | the cartesian product of the dimension ranges has one tuple per position below the product of the lengths |
| CartesianProducts.CartProdAt | src/main/kotlin/software/mdklatt/idea/netcdf/tools/TableView.kt:155-156 | tuple `r` of the product is the row-major (last axis fastest) decoding of `r` over the lengths |
| CartesianProducts.EncodeDecode | src/main/kotlin/software/mdklatt/idea/netcdf/tools/TableView.kt:156 | a row position decoded into a tuple encodes back to the same position |
| CartesianProducts.DecodeEncode | src/main/kotlin/software/mdklatt/idea/netcdf/tools/TableView.kt:156 | an in-bounds tuple encodes to a position below the row count and decodes back to itself |
| Variables.ArrayStringByTypeName | src/main/kotlin/Variable.kt:60-61 | `isArrayString` holds iff the lower-cased type name is "char" and the rank is 2 |
| Variables.LowerTypeNameIsChar | src/main/kotlin/Variable.kt:61 | the lower-cased type name is "char" exactly for the CHAR type |
| Variables.PublicDimensions | src/main/kotlin/Variable.kt:75-78 | the public dimensions are a prefix of the dimensions, one shorter exactly for array strings |
| Variables.NameEscapedIsLastSegment | src/main/kotlin/Variable.kt:67-68 | `nameEscaped` is the part of the full name after its last '/', without any '/' |
| Variables.IsTime | src/main/kotlin/Variable.kt:44-50 | a time variable is numeric and has a units attribute (a missing units attribute gives false) |
| Variables.Calendar | src/main/kotlin/Variable.kt:15-16 | null exactly when the variable is not a time variable; else the named calendar if the library knows it, otherwise the default |
| Variables.DateUnits | src/main/kotlin/Variable.kt:32-33 | present exactly when there is a calendar, and then pairs that calendar with the variable's units |
| Variables.TypeString | src/main/kotlin/Variable.kt:22-26 | the type string starts with "time<" exactly for time variables |
| Variables.BaseTypeNotTimeWrapped | src/main/kotlin/Variable.kt:24 | the base type string ("char[n]" or the lower-cased type name) never starts with "time<" |
| Variables.TimeWrappedStartsWith | src/main/kotlin/Variable.kt:25 | a wrapped type string starts with "time<" |
| Columns.RowIndexAt | src/main/kotlin/software/mdklatt/idea/netcdf/tools/TableView.kt:155-156 | row `r` of the index is the row-major tuple for `r`, within the dimension lengths |
| Columns.RowIndexCovers | src/main/kotlin/software/mdklatt/idea/netcdf/tools/TableView.kt:155-156 | every tuple within the dimension lengths is in the index, at its row-major position |
| Columns.RowIndexLength | src/main/kotlin/software/mdklatt/idea/netcdf/tools/TableView.kt:156 | the index has one entry per row: none without dimensions, else the product of the lengths |
| Columns.RowIndexInBounds | src/main/kotlin/software/mdklatt/idea/netcdf/tools/TableView.kt:156 | every tuple of the index has one coordinate per dimension, below that dimension's length |
| Columns.RowMajorExample | src/main/kotlin/software/mdklatt/idea/netcdf/tools/TableView.kt:155-156 | with dimensions of lengths 2 and 3 the index has 6 rows and row 4 is (1, 1) |
| Columns.CongruentIsListEquality | src/main/kotlin/software/mdklatt/idea/netcdf/tools/TableView.kt:208-211 | `setOf(dimensions) == setOf(variable.dimensions)` holds iff the two ordered lists are equal |
| Columns.CongruenceIsOrderSensitive | src/main/kotlin/software/mdklatt/idea/netcdf/tools/TableView.kt:210 | the same two dimensions in the other order are not congruent |
| Columns.IndexOf | src/main/kotlin/software/mdklatt/idea/netcdf/tools/TableView.kt:225 | `indexOf`: the first position of the element, or -1 exactly when it is absent |
| Columns.Axes | src/main/kotlin/software/mdklatt/idea/netcdf/tools/TableView.kt:46-49 | the axis map exists iff every variable dimension is a table dimension; each axis is that dimension's first table position |
| Columns.Labels | src/main/kotlin/software/mdklatt/idea/netcdf/tools/TableView.kt:132-133 | the labels are the column headings, one per column, in column order |
| Columns.LabelsAppend | src/main/kotlin/software/mdklatt/idea/netcdf/tools/TableView.kt:132-133 | the labels of appended columns are the old labels followed by the new ones |
| Columns.ColumnLabeled | src/main/kotlin/software/mdklatt/idea/netcdf/tools/TableView.kt:200 | found iff some column has the label, and then the first such column; otherwise the unknown-column error |
| Columns.Ones | src/main/kotlin/software/mdklatt/idea/netcdf/tools/TableView.kt:54 | the default read shape is 1 in every position |
| Columns.ReadShape | src/main/kotlin/software/mdklatt/idea/netcdf/tools/TableView.kt:89-91 | the read shape has one extent per variable dimension |
| Columns.ColumnValue | src/main/kotlin/software/mdklatt/idea/netcdf/tools/TableView.kt:61-74 | a cell read succeeds iff the row is in the index and its tuple has every axis the column reads; an index cell is the coordinate on its axis; a variable read has origin = the projected coordinates (then 0 for array strings) and the column's shape |
| Columns.ToolsIsTime | src/main/kotlin/software/mdklatt/idea/netcdf/tools/TableView.kt:274-279 | this `isTime` throws exactly for a numeric variable named "time..." without units; otherwise it agrees with Variable.kt's `isTime` |
| Columns.TimeTest | src/main/kotlin/software/mdklatt/idea/netcdf/tools/TableView.kt:243 | whichever time test a generation uses agrees with `isTime` when it does not throw; the later generations never throw |
| Columns.TimeUnits | src/main/kotlin/software/mdklatt/idea/netcdf/tools/TableView.kt:111-112 | a time column decodes with the variable's own units string |
| Columns.KindFor | src/main/kotlin/software/mdklatt/idea/netcdf/tools/TableView.kt:242-251 | time columns exactly for time variables, string columns exactly for non-time array strings (rank 2, string length = last extent), else plain |
| Columns.VariableColumnFor | src/main/kotlin/software/mdklatt/idea/netcdf/tools/TableView.kt:242-251 | a variable column is built iff the time test does not throw and every mapped dimension is a table dimension; it is labelled with the variable's name; otherwise the incompatible-dimensions error |
| Columns.CoordinateColumnFor | src/main/kotlin/software/mdklatt/idea/netcdf/tools/TableView.kt:221-235 | the coordinate column of a dimension is labelled with the dimension's name |
| Columns.CoordinateColumnForIs | src/main/kotlin/software/mdklatt/idea/netcdf/tools/TableView.kt:221-235 | an index column over the dimension's first table position unless the file has a coordinate variable of that name, whose column it then is; either fits the table dimensions |
| Columns.Collect | src/main/kotlin/software/mdklatt/idea/netcdf/tools/TableView.kt:154 | `forEach` stopped by the first throw: without a throw every outcome adds a column; with one, fewer columns than outcomes |
| Columns.CollectFailure | src/main/kotlin/software/mdklatt/idea/netcdf/tools/TableView.kt:154 | the exception collected is the outcome right after the columns collected |
| Columns.CollectSuccesses | src/main/kotlin/software/mdklatt/idea/netcdf/tools/TableView.kt:154 | the columns collected are the successes before the first throw, in order |
| Columns.CollectNext | src/main/kotlin/software/mdklatt/idea/netcdf/tools/TableView.kt:154 | one more step either appends the next column or stops with its exception for good |
| Columns.CollectStop | src/main/kotlin/software/mdklatt/idea/netcdf/tools/TableView.kt:154 | after a throw, later dimensions add nothing |
| Columns.CoordinateOutcomes | src/main/kotlin/software/mdklatt/idea/netcdf/tools/TableView.kt:154 | one outcome per table dimension |
| Columns.CoordinateOutcomesAt | src/main/kotlin/software/mdklatt/idea/netcdf/tools/TableView.kt:154 | outcome `i` is the coordinate column of dimension `i` or the exception building it throws |
| Columns.CoordinateColumns | src/main/kotlin/software/mdklatt/idea/netcdf/tools/TableView.kt:154 | fewer columns than dimensions exactly when a dimension threw |
| Columns.CoordinateColumnsAre | src/main/kotlin/software/mdklatt/idea/netcdf/tools/TableView.kt:154 | the coordinate columns are those of the leading dimensions, and a throw is that of the next dimension |
| Columns.CoordinateColumnsLabels | src/main/kotlin/software/mdklatt/idea/netcdf/tools/TableView.kt:154 | coordinate column `i` is labelled with dimension `i`'s name |
| Columns.CoordinateColumnsFit | src/main/kotlin/software/mdklatt/idea/netcdf/tools/TableView.kt:154 | every coordinate column is built over the table dimensions |
| Tables.AppendVariable | src/main/kotlin/software/mdklatt/idea/netcdf/tools/TableView.kt:242-251 | `addVariableColumn` appends the variable's column and passes, or throws and leaves the table unchanged |
| Tables.SetUp | src/main/kotlin/software/mdklatt/idea/netcdf/tools/TableView.kt:152-154 | the first variable's dimensions become the table's, followed by its coordinate columns; labels gain the dimension names when nothing throws |
| Tables.EmptyTableWf | src/main/kotlin/software/mdklatt/idea/netcdf/tools/TableView.kt:128-130 | the empty table keeps the invariant (index empty or the row index of the dimensions; every column fits) |
| Tables.FitsWithoutDimensions | src/main/kotlin/software/mdklatt/idea/netcdf/tools/TableView.kt:46-49 | a column built while there were no dimensions reads no axis and stays valid for any dimensions |
| Tables.SetUpWf | src/main/kotlin/software/mdklatt/idea/netcdf/tools/TableView.kt:152-156 | setting a table up keeps the invariant, with and without its new index |
| Tables.AppendVariableWf | src/main/kotlin/software/mdklatt/idea/netcdf/tools/TableView.kt:250 | appending a variable column keeps the invariant |
| Tables.NoDimensionsNoRows | src/main/kotlin/software/mdklatt/idea/netcdf/tools/TableView.kt:156 | a table without dimensions has no rows |
| Tables.CellReadable | src/main/kotlin/software/mdklatt/idea/netcdf/tools/TableView.kt:74 | in a well-formed table every cell of every row can be read, with each origin coordinate inside the variable's dimension |
| Tables.OriginInside | src/main/kotlin/software/mdklatt/idea/netcdf/tools/TableView.kt:61 | for a tuple within the table dimensions, each projected origin coordinate lies inside the variable's dimension |
| Tables.RowTuple | src/main/kotlin/software/mdklatt/idea/netcdf/tools/TableView.kt:74 | the tuple at a row of a well-formed table lies within the table dimensions |
| Tables.FitsVariable | src/main/kotlin/software/mdklatt/idea/netcdf/tools/TableView.kt:46-54 | a fitting variable column maps its dimensions into the table dimensions and carries the kind and shape its variable calls for |
| Tables.AxesInside | src/main/kotlin/software/mdklatt/idea/netcdf/tools/TableView.kt:46-49 | a tuple within the table dimensions is within every mapped variable dimension |
| Tables.ModelReadInside | src/main/kotlin/DataModel.kt:106-112 | in DataModel.kt a cell read covers one element (or one whole string): origin and shape have one entry per dimension and origin + shape stays inside the variable |
| Tables.ModelColumn | src/main/kotlin/DataModel.kt:99-112 | a DataModel.kt variable column is a string column exactly for array strings and maps exactly the public dimensions |
| Tables.ModelKind | src/main/kotlin/DataModel.kt:239-248 | DataModel.kt builds a string column exactly for array-string variables |
| Tables.SliceInside | src/main/kotlin/DataModel.kt:106-112 | origin and shape stay inside the variable whenever the mapped coordinates do |
| TableViews.Added | src/main/kotlin/software/mdklatt/idea/netcdf/tools/TableView.kt:147-162 | an existing label makes `add` a no-op; a throw after set-up leaves the table unchanged |
| TableViews.AddedAll | src/main/kotlin/software/mdklatt/idea/netcdf/tools/TableView.kt:165-168 | adding no names changes nothing |
| TableViews.AddKeepsLabels | src/main/kotlin/software/mdklatt/idea/netcdf/tools/TableView.kt:147-162 | an add never removes or relabels a column: the old labels stay a prefix |
| TableViews.AddAllKeepsLabels | src/main/kotlin/software/mdklatt/idea/netcdf/tools/TableView.kt:165-168 | neither does a batch of adds |
| TableViews.AddUnknown | src/main/kotlin/software/mdklatt/idea/netcdf/tools/TableView.kt:151 | an unknown name throws and changes nothing |
| TableViews.FirstAdd | src/main/kotlin/software/mdklatt/idea/netcdf/tools/TableView.kt:152-156 | the first variable fixes the dimensions and the index (one tuple per row) and adds one coordinate column per dimension, then its own |
| TableViews.FirstAddSteps | src/main/kotlin/software/mdklatt/idea/netcdf/tools/TableView.kt:152-160 | the first add is the set-up followed by the variable's column over the new index |
| TableViews.LaterAdd | src/main/kotlin/software/mdklatt/idea/netcdf/tools/TableView.kt:157-160 | a later variable is added iff its dimension list equals the table's and its column builds; an incongruent one throws and changes nothing |
| TableViews.AddWf | src/main/kotlin/software/mdklatt/idea/netcdf/tools/TableView.kt:147-162 | every add keeps the table invariant |
| TableViews.AddAllWf | src/main/kotlin/software/mdklatt/idea/netcdf/tools/TableView.kt:165-168 | every batch of adds keeps the table invariant |
| TableViews.ToolsStringOriginTooLong | src/main/kotlin/software/mdklatt/idea/netcdf/tools/TableView.kt:91-95 | an array-string read here has an origin one entry longer than the variable's rank, while its shape has rank entries |
| TableViews.OwnCoordinateTwice | src/main/kotlin/software/mdklatt/idea/netcdf/tools/TableView.kt:148-160 | a first variable that is its own coordinate variable gets two columns with the same label |
| TableViews.UnitlessTimeCoordinate | src/main/kotlin/software/mdklatt/idea/netcdf/tools/TableView.kt:278 | a first variable that is its own unitless time coordinate throws while its coordinate column is built; the table keeps the dimensions but has no columns |
| TableViews.DuplicateLabel | src/main/kotlin/software/mdklatt/idea/netcdf/tools/TableView.kt:148-160 | adding "lat" from a file whose "lat" is its own coordinate variable gives labels ["lat", "lat"] |
| TableViews.UnitlessTimeThrows | src/main/kotlin/software/mdklatt/idea/netcdf/tools/TableView.kt:278 | adding a unitless numeric "time" coordinate throws the missing-units error |
| TableViews.TableView.constructor | src/main/kotlin/software/mdklatt/idea/netcdf/tools/TableView.kt:128-130 | a new table view is empty and valid |
| TableViews.TableView.ColumnLabels | src/main/kotlin/software/mdklatt/idea/netcdf/tools/TableView.kt:132-133 | one label per column |
| TableViews.TableView.RowCount | src/main/kotlin/software/mdklatt/idea/netcdf/tools/TableView.kt:135-136 | no rows, or the product of the dimension lengths |
| TableViews.TableView.ColumnCount | src/main/kotlin/software/mdklatt/idea/netcdf/tools/TableView.kt:138-139 | the number of labels |
| TableViews.TableView.ColumnAt | src/main/kotlin/software/mdklatt/idea/netcdf/tools/TableView.kt:191 | found iff the position is in range, and then the column with that position's label |
| TableViews.TableView.ColumnNamed | src/main/kotlin/software/mdklatt/idea/netcdf/tools/TableView.kt:200 | found iff some column has the label |
| TableViews.TableView.AddCoordinateColumn | src/main/kotlin/software/mdklatt/idea/netcdf/tools/TableView.kt:221-235 | appends the dimension's coordinate column, or throws and appends nothing; dimensions and index stay |
| TableViews.TableView.AddVariableColumn | src/main/kotlin/software/mdklatt/idea/netcdf/tools/TableView.kt:242-251 | the new state is `AppendVariable` of the old |
| TableViews.TableView.AddCoordinateColumns | src/main/kotlin/software/mdklatt/idea/netcdf/tools/TableView.kt:154 | appends the collected coordinate columns, up to the first throw |
| TableViews.TableView.AddNextCoordinateColumn | src/main/kotlin/software/mdklatt/idea/netcdf/tools/TableView.kt:154 | one iteration of the loop: appends the next coordinate column or stops with its exception |
| TableViews.TableView.Add | src/main/kotlin/software/mdklatt/idea/netcdf/tools/TableView.kt:147-162 | the new state and outcome are those of `Added`; validity is kept |
| TableViews.TableView.AddAll | src/main/kotlin/software/mdklatt/idea/netcdf/tools/TableView.kt:165-168 | the new state and outcome are those of `AddedAll`; validity is kept |
| TableViews.TableView.Clear | src/main/kotlin/software/mdklatt/idea/netcdf/tools/TableView.kt:179-183 | the table is empty again: no labels and no rows |
| DataModels.Searched | src/main/kotlin/DataModel.kt:179 | with no file, every lookup finds nothing |
| DataModels.UnlessPresent | src/main/kotlin/DataModel.kt:188-192 | a name already labelled adds nothing; otherwise the variable's column is appended |
| DataModels.AddedVariable | src/main/kotlin/DataModel.kt:178-193 | an unknown name (or no file) throws and changes nothing; a throw after set-up leaves the table unchanged |
| DataModels.AddedVariables | src/main/kotlin/DataModel.kt:164-170 | adding no names changes nothing |
| DataModels.NoFileThrows | src/main/kotlin/DataModel.kt:179 | without a file every name is unknown |
| DataModels.FirstVariable | src/main/kotlin/DataModel.kt:180-192 | the first variable fixes the public dimensions and the index and adds the coordinate columns, then its own column only if its name is not already a label |
| DataModels.FirstVariableSteps | src/main/kotlin/DataModel.kt:180-192 | the first add is the set-up over the public dimensions, then the duplicate check over the new index |
| DataModels.OwnCoordinateOnce | src/main/kotlin/DataModel.kt:188-192 | a first variable that is its own coordinate variable gets one column |
| DataModels.LaterVariable | src/main/kotlin/DataModel.kt:185-192 | a later variable passes iff congruent and (already present or its column builds); incongruent throws and changes nothing; present changes nothing |
| DataModels.AddVariableWf | src/main/kotlin/DataModel.kt:178-193 | every `addVariable` keeps the table invariant |
| DataModels.AddVariablesWf | src/main/kotlin/DataModel.kt:168 | every batch keeps the table invariant |
| DataModels.DataModel.constructor | src/main/kotlin/DataModel.kt:144-148 | a new model has no file, no table and is valid |
| DataModels.DataModel.ColumnLabels | src/main/kotlin/DataModel.kt:150-151 | one label per column, the column headings in order |
| DataModels.DataModel.SetData | src/main/kotlin/DataModel.kt:164-170 | reset, keep the file, then the state of adding the names in order from the empty table; validity holds |
| DataModels.DataModel.AddVariable | src/main/kotlin/DataModel.kt:178-193 | the new state and outcome are those of `AddedVariable`; validity is kept |
| DataModels.DataModel.ResetData | src/main/kotlin/DataModel.kt:198-203 | no file, no columns, no rows |
| DataModels.DataModel.AddCoordinateColumn | src/main/kotlin/DataModel.kt:223-232 | appends the dimension's coordinate column (Int index column when no coordinate variable), or throws and appends nothing |
| DataModels.DataModel.AddVariableColumn | src/main/kotlin/DataModel.kt:239-248 | the new state is `AppendVariable` of the old |
| DataModels.DataModel.AddCoordinateColumns | src/main/kotlin/DataModel.kt:182 | appends the collected coordinate columns, up to the first throw |
| DataModels.DataModel.AddNextCoordinateColumn | src/main/kotlin/DataModel.kt:182 | one iteration of the loop: appends the next coordinate column or stops with its exception |
| DataModels.DataModel.RowCount | src/main/kotlin/DataModel.kt:259 | no rows, or the product of the dimension lengths |
| DataModels.DataModel.ColumnCount | src/main/kotlin/DataModel.kt:269 | the number of labels and of columns |
| DataModels.DataModel.ColumnClass | src/main/kotlin/DataModel.kt:274-275 | the column's type when the position is in range, else the index error |
| DataModels.DataModel.ColumnName | src/main/kotlin/DataModel.kt:280-281 | the label at that position when in range |
| DataModels.DataModel.ValueAt | src/main/kotlin/DataModel.kt:291-292 | the column's cell read; in a valid model every in-range cell reads one element inside its variable |
| Paging.PageCountOf | src/main/kotlin/viewer/Paging.kt:51-56 | the page count is the least n with rows <= n * pageSize (the ceiling of rows / pageSize) |
| Paging.PageCountUnique | src/main/kotlin/viewer/Paging.kt:55 | any n with those two bounds is the page count |
| Paging.PageCountZero | src/main/kotlin/viewer/Paging.kt:55 | no pages exactly when there are no rows |
| Paging.ClampPage | src/main/kotlin/viewer/Paging.kt:28-32 | 0 when there are no pages; else `coerceIn(1, pageCount)`: in range values kept, lower ones to 1, higher ones to the last page |
| Paging.ClampPageIdempotent | src/main/kotlin/viewer/Paging.kt:30 | clamping a clamped page number changes nothing |
| Paging.LastPageRows | src/main/kotlin/viewer/Paging.kt:40-46 | the last page holds rows - (pageCount - 1) * pageSize rows, between 1 and pageSize |
| Paging.DataRowInRange | src/main/kotlin/viewer/Paging.kt:61 | a row on a valid page maps to a data row in [0, rows) |
| Paging.DataRowCovered | src/main/kotlin/viewer/Paging.kt:61 | every data row is shown on exactly the page d / pageSize + 1, at row d % pageSize |
| Paging.DataRowInjective | src/main/kotlin/viewer/Paging.kt:61 | different (page, row) pairs with rows below the page size map to different data rows |
| Paging.EmptyTableRows | src/main/kotlin/viewer/Paging.kt:40-46 | with no rows the page count is 0 and the page row count is pageSize, not 0 |
| Paging.TenRowPages | src/main/kotlin/viewer/Paging.kt:40-56 | 32768 rows in pages of 10 make 3277 pages, 10 rows on page 1 and 8 on the last |
| Paging.PageableTableModel.constructor | src/main/kotlin/viewer/Paging.kt:19-34 | page count 0, page size 50, page number 0, no data rows |
| Paging.PageableTableModel.UpdatePageCount | src/main/kotlin/viewer/Paging.kt:51-56 | the page count becomes the ceiling of the data rows over the page size; nothing else changes |
| Paging.PageableTableModel.SetPageSize | src/main/kotlin/viewer/Paging.kt:22-26 | stores the page size and recounts the pages; the page number is not re-clamped |
| Paging.PageableTableModel.SetPageNumber | src/main/kotlin/viewer/Paging.kt:28-32 | stores the clamped page number; nothing else changes |
| Paging.PageableTableModel.SetDataRowCount | src/main/kotlin/viewer/Paging.kt:34-38 | stores max(value, 0) and recounts the pages; the page number is not re-clamped |
| Paging.PageableTableModel.PageRowCount | src/main/kotlin/viewer/Paging.kt:40-46 | pageSize on every page before the last, between 1 and pageSize on the last |
| Paging.PageableTableModel.DataRowIndex | src/main/kotlin/viewer/Paging.kt:61 | on a valid page, a row below the page row count maps into [0, dataRowCount) |
| Paging.StalePageNumber | src/main/kotlin/viewer/Paging.kt:22-38 | after the row count shrinks the page number can exceed the page count (10 of 1) |
| Viewer.ReaderAdded | src/main/kotlin/viewer/DataModel.kt:164-178 | one name of the initializer: the index is untouched; an unknown name throws and changes nothing; a later throw leaves the table unchanged |
| Viewer.ReaderAddedAll | src/main/kotlin/viewer/DataModel.kt:164-178 | the loop never touches the index; no names change nothing |
| Viewer.Loaded | src/main/kotlin/viewer/DataModel.kt:163-183 | a loaded reader's index is the row index of its dimensions |
| Viewer.AgreeStep | src/main/kotlin/viewer/DataModel.kt:166-177 | one initializer step does what DataModel.kt's `addVariable` does, up to building the index |
| Viewer.AgreeAll | src/main/kotlin/viewer/DataModel.kt:164-178 | so does the whole loop |
| Viewer.LoadedIsSetData | src/main/kotlin/viewer/DataModel.kt:163-183 | the reader loads exactly when DataModel.kt's `setData` passes, into the same table, and fails with the same exception |
| Viewer.LoadedWf | src/main/kotlin/viewer/DataModel.kt:179-182 | a loaded reader keeps the table invariant and has one index entry per row |
| Viewer.Load | src/main/kotlin/viewer/DataModel.kt:163-183 | the initializer's result is `Loaded` |
| Viewer.LoadVariable | src/main/kotlin/viewer/DataModel.kt:165-177 | one loop iteration's result is `ReaderAdded` |
| Viewer.AddCoordinateColumns | src/main/kotlin/viewer/DataModel.kt:169 | appends the collected coordinate columns, up to the first throw |
| Viewer.AddCoordinateColumn | src/main/kotlin/viewer/DataModel.kt:213-222 | one coordinate column appended, or the exception that stops the loop |
| Viewer.DataModel.PageCount | src/main/kotlin/viewer/DataModel.kt:256-260 | the ceiling of the reader's rows over the page size, 0 without a reader; 0 exactly when there are no rows |
| Viewer.DataModel.constructor | src/main/kotlin/viewer/DataModel.kt:247-251 | no file, no reader, page 0; valid |
| Viewer.DataModel.SetPageNumber | src/main/kotlin/viewer/DataModel.kt:262-265 | stores the page number clamped to the page count |
| Viewer.DataModel.FillTable | src/main/kotlin/viewer/DataModel.kt:277-282 | keeps the file; a loaded reader replaces the old one and the page becomes 1, clamped; a failed load leaves reader and page as they were |
| Viewer.DataModel.ClearTable | src/main/kotlin/viewer/DataModel.kt:287-291 | no reader, no file, page 0: no labels and no pages |
| Viewer.DataModel.Labels | src/main/kotlin/viewer/DataModel.kt:253-254 | the reader's column labels, or none without a reader |
| Viewer.DataModel.RowCount | src/main/kotlin/viewer/DataModel.kt:302-306 | pageSize before the last page, rows - (pageCount - 1) * pageSize on it, 0 without a reader, pageSize for a reader without rows |
| Viewer.DataModel.ColumnCount | src/main/kotlin/viewer/DataModel.kt:316 | the number of labels, 0 without a reader |
| Viewer.DataModel.ColumnClass | src/main/kotlin/viewer/DataModel.kt:321-322 | the column's type; the table-undefined error without a reader |
| Viewer.DataModel.ColumnName | src/main/kotlin/viewer/DataModel.kt:327-328 | the label at that position when in range |
| Viewer.DataModel.ValueAt | src/main/kotlin/viewer/DataModel.kt:338-341 | reads global row (pageNumber - 1) * pageSize + row; null without a reader; on a valid page the row is in range and the read stays inside the variable |
| Readers.ByNameDistinct | src/main/kotlin/software/mdklatt/idea/netcdf/tools/NetcdfReader.kt:47 | `associateBy` keys each variable once |
| Readers.ByNameLookup | src/main/kotlin/software/mdklatt/idea/netcdf/tools/NetcdfReader.kt:47 | looking a name up in `variables` gives the file's last variable with that name |
| Readers.ByNameOfDistinct | src/main/kotlin/software/mdklatt/idea/netcdf/tools/NetcdfReader.kt:47 | with distinct names, `variables` lists the file's variables in file order |
| Readers.IndexFallback | src/main/kotlin/software/mdklatt/idea/netcdf/tools/NetcdfReader.kt:97-100 | without a namesake variable the dimension values are the indexes 0 .. length-1 |
| Readers.RankCheck | src/main/kotlin/software/mdklatt/idea/netcdf/tools/NetcdfReader.kt:101-111 | a namesake variable of rank other than 1 throws; otherwise its own values are the dimension values |
| Readers.AxisValuesAre | src/main/kotlin/software/mdklatt/idea/netcdf/tools/NetcdfReader.kt:76 | on success one axis per dimension holding the stringified dimension values; a failure is some dimension's failure |
| Readers.AxisValuesPrefixFails | src/main/kotlin/software/mdklatt/idea/netcdf/tools/NetcdfReader.kt:76 | once a dimension throws, the whole map throws the same exception |
| Readers.SelectedMembers | src/main/kotlin/software/mdklatt/idea/netcdf/tools/NetcdfReader.kt:72 | the selection holds exactly the variables whose names were asked for |
| Readers.Zip | src/main/kotlin/software/mdklatt/idea/netcdf/tools/NetcdfReader.kt:80-83 | `zip` pairs elements at equal positions, up to the shorter length |
| Readers.ToMapEntries | src/main/kotlin/software/mdklatt/idea/netcdf/tools/NetcdfReader.kt:83 | every value of `toMap` comes from a pair, and every first component is a key |
| Readers.ToMapDistinct | src/main/kotlin/software/mdklatt/idea/netcdf/tools/NetcdfReader.kt:83 | with distinct keys, each key maps to its own pair's value |
| Readers.ReadNothingSelected | src/main/kotlin/software/mdklatt/idea/netcdf/tools/NetcdfReader.kt:72-73 | `read` throws no-such-element exactly when none of the names is a key of `variables` |
| Readers.RecordCount | src/main/kotlin/software/mdklatt/idea/netcdf/tools/NetcdfReader.kt:77-80 | one record per tuple of the shorter of the two products |
| Readers.RecordCountAligned | src/main/kotlin/software/mdklatt/idea/netcdf/tools/NetcdfReader.kt:77-80 | when every axis has as many values as its dimension is long, one record per cell |
| Readers.RecordAt | src/main/kotlin/software/mdklatt/idea/netcdf/tools/NetcdfReader.kt:77-83 | record `k` is built from the `k`-th row-major tuple of positions and of coordinate texts |
| Readers.RecordReads | src/main/kotlin/software/mdklatt/idea/netcdf/tools/NetcdfReader.kt:74-82 | every read of record `k` is of a selected variable, at the `k`-th row-major tuple, with a shape of all 1s |
| Readers.RecordIndexOf | src/main/kotlin/software/mdklatt/idea/netcdf/tools/NetcdfReader.kt:83 | a record's index maps each dimension name to the text at its position |
| Readers.RecordIndex | src/main/kotlin/software/mdklatt/idea/netcdf/tools/NetcdfReader.kt:76-83 | record `k`'s index maps each dimension name to the coordinate text of the `k`-th tuple on that axis |
| Readers.RecordDataByPosition | src/main/kotlin/software/mdklatt/idea/netcdf/tools/NetcdfReader.kt:82-83 | the name at position `j` reads the `j`-th selected variable in file order, whatever its own name |
| Readers.MisalignedSelection | src/main/kotlin/software/mdklatt/idea/netcdf/tools/NetcdfReader.kt:72-83 | asking for "tas" then "pr" from a file holding "pr" first pairs "tas" with "pr" |
| Readers.NetcdfReader.constructor | src/main/kotlin/software/mdklatt/idea/netcdf/tools/NetcdfReader.kt:15-27 | a new reader is closed and its `variables` is empty |
| Readers.NetcdfReader.OpenedAt | src/main/kotlin/software/mdklatt/idea/netcdf/tools/NetcdfReader.kt:32-34 | opening at construction succeeds exactly when the path exists, with that file open; otherwise the open exception |
| Readers.NetcdfReader.Open | src/main/kotlin/software/mdklatt/idea/netcdf/tools/NetcdfReader.kt:41-49 | keeps the open file when its location is the path, else opens the path (or throws, changing nothing); then `variables` is the file's variables keyed by name |
| Readers.NetcdfReader.Close | src/main/kotlin/software/mdklatt/idea/netcdf/tools/NetcdfReader.kt:56-61 | closed with empty `variables` whatever the state before, so closing twice is closing once |
| Readers.NetcdfReader.DimensionValues | src/main/kotlin/software/mdklatt/idea/netcdf/tools/NetcdfReader.kt:96-112 | the loop's result is `DimensionValuesOf`: the index fallback, the rank check, the values in order |
| Readers.NetcdfReader.Read | src/main/kotlin/software/mdklatt/idea/netcdf/tools/NetcdfReader.kt:70-85 | the result is `ReadRecords` over the open file and `variables` |

## Left out

- The IntelliJ and Swing user interface, logging and `fireTable*` events.
  They do not change the table state.
- Cell values. A cell is modelled as an index value or a read request: the
  variable, origin, shape and decode kind. The library's `read`,
  `getObject`, `toString` and `makeCalendarDate` are not modelled, and
  neither is the time decoding they perform.
- `cartProd` comes from a vendored library whose source is not part of this
  model. It is defined here as the row-major product.
- Library collaborators are passed in as a `Library` value:
  - the udunit regex;
  - `Calendar.get`;
  - `Calendar.getDefault()`.

  `isCoordinateVariable` is a field of `Variable`, as the library reports it.
- Names. Each variable and dimension has one name string, so `fullName` and
  `fullNameEscaped` are the same. Dimensions are equal when name and length
  agree; the library's sharing and unlimited flags are not modelled.
- Integer width:
  - Row counts and positions are unbounded. Java `Int` overflow of the
    product of the lengths, or of `(pageNumber - 1) * pageSize`, is not
    modelled.
  - The page count is computed as `ceil(count.toDouble() / pageSize)`. It is
    modelled as integer ceiling division, which equals it while counts stay
    far below 2^53.
- Paging.PageableTableModel.SetPageSize: requires a positive page size. A
  page size of 0 or less gives a floating-point infinity or NaN in the
  source.
- Paging.PageableTableModel.UpdatePageCount: requires a positive page size,
  for the same reason.
- Viewer.DataModel.constructor: the page size is a positive `PageSize`, for
  the same reason; the source's default is 100.
- `TableView.add(vararg names)` (tools/TableView.kt:171-174) only forwards to
  `add(names)`, which is modelled as `AddAll`.
- `TableView`, DataModel.kt's `DataModel` and `NetcdfReader.read` are
  modelled over the file they are given. Opening and closing library files
  is not modelled.
  - Readers.NetcdfReader.Open: when the new path cannot be opened, the source
    has already closed the old file but still holds it. The model keeps
    `file` and `variables` as they were and does not track the library's
    closed flag.
  - The file system is the reader's `disk` map from path to variables. The
    location of an opened file is its path.
- Readers.NetcdfReader.Read: the source returns a lazy `Sequence`, so a
  failing variable read would surface while iterating. The model builds
  every record at once, and its reads are requests that cannot fail. The key
  order of each record's maps is not modelled.
- `columns[i]` out of range throws `IndexOutOfBoundsException` in the source.
  Here it is the `IndexOutOfBounds` error.
- The `getValueAt` of viewer/DataModel.kt's `NetcdfReader`
  (viewer/DataModel.kt:192-193) is the same column read as the paged model's
  `ValueAt`. It is not modelled separately.
