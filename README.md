# iot-ids in Dafny

A verified model of the decision core of `iot-ids`, an intrusion detector for IoT network traffic.
It has two halves.

- **The detector `AnomalyDetector_FI`** (`model_FI.py`).
  - `fit`:
    - lays out each training row as its one-hot block followed by its scaled numeric block;
    - keeps the `n_fi` columns XGBoost rates most important;
    - splits the rows into attack rows (label 1) and normal rows (label 0);
    - reduces each part to one representative per non-empty MiniBatchKMeans cluster, but only when the part has at least `k` rows;
    - trains one IsolationForest per part.
  - `predict`:
    - lays out new rows the same way and keeps the columns chosen in `fit`;
    - turns each forest's +1/-1 answers into inlier flags, and stores the normal model's flags inverted;
    - fuses the two flags of every row into a label: 1 attack, 0 normal, -1 unknown.
- **The UNSW-NB15 loader `Dataset_UNSW_NB15_1`** (`dataset_UNSW_NB15_1.py`).
  - `cut_data` cuts the raw table to `nrows` rows, optionally balanced between the two labels.
  - `preprocess`:
    - drops the unwanted columns;
    - converts `dsport` (hex first, then decimal, else -1) and drops the rows where it is -1;
    - keeps the rows whose `sport` is an integer;
    - keeps the rows whose `srcip` is among the 20 most frequent.
  - `load_data` splits off the `Label` column.
  - `bitwise` expands the source and destination IPv4 addresses into 32 bit columns each and records them as categorical.

The machine-learning libraries appear only through their outputs, which the model takes as inputs:
- the one-hot and scaled blocks;
- XGBoost's importance vector;
- the cluster labels and distance matrix of MiniBatchKMeans;
- an IsolationForest's +1/-1 verdict on a row.

A pandas DataFrame is a `Frame`: a map from column to a column of cells, plus a row count.

Modules:
- `Common`: `np.where`-style index lists, gathering and boolean masks.
- `Ranking`: a descending ranking of indices by key, used for `argsort(...)[::-1]` and `value_counts`.
- `PyInt`: Python's `int(s, base)` over ASCII text, and the digit formatting behind `format(n, '08b')`.
- `IpBits`: `split('.')` / `join` and the IPv4 bit string.
- `Frames`: the DataFrame operations the loader uses.
- `Dataset`: the loader.
- `Selection`: feature layout, class split and feature selection.
- `Sampling`: `get_nearest_points` and `make_cluster`.
- `Fusion`: verdict mapping and fusion.
- `Detector`: the `AnomalyDetector` class with `Fit` and `Predict`.

## Model

| member | source | states |
|---|---|---|
| Selection.SplitSubsystem | model_FI.py:45-48 | The attack part has as many rows as there are labels 1, and the normal part as many as there are labels 0. |
| Selection.WhereOccurrences | model_FI.py:46-47 | `np.where(y == v)` finds exactly as many positions as `v` occurs in `y`. |
| Selection.SplitSubsystemSnoc | model_FI.py:45-48 | An extra row goes to the end of the attack part when labelled 1, to the end of the normal part when labelled 0, and to neither otherwise. Together with the empty case, each part is exactly the rows of its label, in their original order. |
| Selection.SplitSubsystemCovers | model_FI.py:45-48 | The two parts together hold at most all rows, and all of them exactly when every label is 0 or 1. Rows with other labels are in neither part. |
| Selection.Processed | model_FI.py:89 | Each processed row is its one-hot part followed by its numeric part, so its width is the sum of the two. |
| Selection.ProcessedColumns | model_FI.py:89 | The first `wOhe` columns of the processed matrix are the one-hot columns, and the next `wNum` are the numeric columns, in order. |
| Selection.SelectColumns | model_FI.py:56 | The result has the input's rows, and entry j of a row is that row's entry at `cols[j]`. |
| Selection.SelectedFeature | model_FI.py:89-91 | A kept column reads the one-hot block when its index is below the one-hot width and the numeric block otherwise. So blocks of equal width in `fit` and `predict` give the same feature under the same kept index. |
| Selection.FeatureSelection | model_FI.py:50-58 | It returns `min(n_fi, columns)` distinct in-range column indices with non-increasing importance. The reduced matrix's column j is input column `important_features[j]`. |
| Selection.FeatureSelectionTop | model_FI.py:55 | No column left out is more important than any column kept. |
| Selection.FeatureSelectionAll | model_FI.py:55 | With `n_fi` at least the column count, every column is kept. |
| Ranking.RankDescending | model_FI.py:55 | `argsort(keys)[::-1]` is a permutation of the indices with non-increasing keys. |
| Ranking.TopOfRanking | model_FI.py:55 | An index outside the first m places of the ranking has a key no larger than any index inside them. |
| Sampling.ArgMinFirst | model_FI.py:66 | `np.argmin` returns an index of a minimal key, and every earlier key is strictly larger, so it is the first minimum. |
| Sampling.MemberDistances | model_FI.py:66 | `distances[cluster_indices, i]` has one entry per member: that member's distance to centroid i. |
| Sampling.Nearest | model_FI.py:64-66 | The chosen row belongs to cluster c and is at least as close to c's centroid as every member. Every earlier member is strictly farther. |
| Sampling.NonEmptyClusters | model_FI.py:63-65 | The cluster ids below c that have members, in increasing order, each exactly once. |
| Sampling.Representatives | model_FI.py:63-67 | The loop over clusters 0 .. c-1 emits at most one row per cluster. |
| Sampling.RepresentativesAt | model_FI.py:63-67 | The representatives are one row per non-empty cluster, in increasing cluster order. The j-th is the nearest member of the j-th non-empty cluster. |
| Sampling.ColumnStack | model_FI.py:78 | `np.column_stack` keeps each row as a prefix and puts the row's cluster label after it. |
| Sampling.LastColumn | model_FI.py:64 | Column `-1` of the stacked matrix holds each row's last entry. |
| Sampling.DropLastColumn | model_FI.py:69 | `[:, :-1]` removes exactly the last entry of every row. |
| Sampling.ClusterStep | model_FI.py:64-66 | Reading the cluster column of the stacked matrix finds members exactly when cluster c is non-empty. The argmin over their distances is the cluster's nearest row. |
| Sampling.UnstackRepresentatives | model_FI.py:69-78 | Picking representatives from the stacked matrix and then dropping the cluster column gives the representatives of the original rows. |
| Sampling.GetNearestPoints | model_FI.py:60-70 | The loop over clusters returns the representatives of the stacked matrix with the cluster column removed. |
| Sampling.MakeCluster | model_FI.py:72-80 | Fewer than k rows come back unchanged. Otherwise the result is the nearest-member representatives of the clustering. |
| Sampling.Sampled | model_FI.py:72-80 | `make_cluster` never returns more rows than it is given, and at most k when it clusters. |
| Sampling.SampledRows | model_FI.py:72-80 | Every sampled row is an input row of the same width. With at least k rows there are at most k representatives, and at least one when there are rows. |
| Fusion.Flags | model_FI.py:119-123 | The flag list has one entry per answer, each 0 or 1, and a flag is 1 exactly when the answer is +1. |
| Fusion.Complement | model_FI.py:124 | The stored list has one 0/1 entry per flag, and it is 1 exactly when the flag is not 1. |
| Fusion.ComplementInvolution | model_FI.py:123-124 | Inverting the stored list again gives back the flags that fusion uses. |
| Fusion.Decide | model_FI.py:126-132 | Every label is -1, 0 or 1, and a row the attack model accepts is labelled 1 whatever the normal model says. |
| Fusion.DecideMeaning | model_FI.py:126-132 | On 0/1 flags the truth table is 1 iff attack=1, 0 iff attack=0 and normal=1, and -1 iff attack=0 and normal=0. |
| Fusion.DecideFromReported | model_FI.py:124-132 | Read from the stored inverted list: normal iff the attack model rejects the row and the list does not mark it; unknown iff the attack model rejects it and the list marks it. |
| Fusion.FuseVerdicts | model_FI.py:126-132 | One label per row, each in {-1, 0, 1} and given by the truth table of that row's two flags. |
| Detector.TrainedForest | model_FI.py:99-100 | The sub-sample size is `min(max_samples, len(sampled))`. It is no larger than either and equal to one of them. |
| Detector.Answers | model_FI.py:118-122 | The forest answers once per row. |
| Detector.Train | model_FI.py:84-97 | The kept features and reduced matrix are the feature selection of the processed matrix. The two parts are its class split, and each sample is the part's `make_cluster` result. |
| Detector.AnomalyDetector.constructor | model_FI.py:24-43 | It stores the parameters, with 50 trees and a cap of 100 samples, and no forest is trained yet. |
| Detector.AnomalyDetector.Fit | model_FI.py:82-100 | It sets every field from `Train`'s results and trains both forests with 50 trees, `min(100, len(sampled))` samples and the part's contamination. The reported lists are left alone. |
| Detector.AnomalyDetector.Predict | model_FI.py:103-134 | It uses the columns kept in `fit` and returns one label in {-1, 0, 1} per row, fused from the two forests' flags. It stores the attack flags and the inverted normal flags. |
| Dataset.ConvertToDecimal | dataset_UNSW_NB15_1.py:39-51 | Non-strings pass through unchanged, and every string becomes an integer. |
| Dataset.ConvertReadsHexFirst | dataset_UNSW_NB15_1.py:42-51 | A string that parses in base 16 gets its base-16 value; any other string gets -1. |
| Dataset.ConvertHexText | dataset_UNSW_NB15_1.py:43-44 | `"0x"` followed by the hex digits of n converts to n. |
| Dataset.ConvertDecimalText | dataset_UNSW_NB15_1.py:43-48 | The decimal text of n converts to its digits read in base 16, never to n through the base-10 branch. |
| Dataset.ConvertEighty | dataset_UNSW_NB15_1.py:43-44 | `"80"` converts to 128. |
| Dataset.ConvertRejectsSeparator | dataset_UNSW_NB15_1.py:42-51 | Text led by `\x1c`, which `int()` does not skip, converts to -1. |
| PyInt.DecimalImpliesHex | dataset_UNSW_NB15_1.py:44-48 | Every string `int(s)` accepts is accepted by `int(s, 16)` too, with the same sign and digits, so the base-10 branch never decides the value. |
| PyInt.ParseInt | dataset_UNSW_NB15_1.py:44-48 | Empty or all-blank text raises. Accepted text ends, after the blanks, in a digit of the base, and a negative value comes only from a leading `-`. |
| PyInt.DecimalRoundTrip | dataset_UNSW_NB15_1.py:48 | `int(str(n)) == n`. |
| PyInt.HexRoundTrip | dataset_UNSW_NB15_1.py:44 | `int('0x' + hex digits of n, 16) == n`. |
| PyInt.FormatValue | dataset_UNSW_NB15_1.py:69 | The digits `format` writes are well formed in the base, and they read back as n. |
| Dataset.ConvertColumn | dataset_UNSW_NB15_1.py:96 | Every cell of the column is converted, in place and order. |
| Dataset.ConvertDsport | dataset_UNSW_NB15_1.py:96 | Only `dsport` changes, each cell to its conversion; the columns and row count stay. |
| Dataset.DsportValid | dataset_UNSW_NB15_1.py:99 | The mask is true exactly at the rows whose `dsport` is not -1. |
| Dataset.DropInvalidDsport | dataset_UNSW_NB15_1.py:98-99 | The result is the selection of the rows whose `dsport` is not -1: same columns, each column the input's cells at those rows in order, so no kept `dsport` is -1. |
| Dataset.DropInvalidDsportKeeps | dataset_UNSW_NB15_1.py:99 | Every row whose `dsport` is not -1 is kept, after the kept rows before it. |
| Dataset.SportIsInt | dataset_UNSW_NB15_1.py:103 | The mask is true exactly at the rows whose `sport` is an integer. |
| Dataset.KeepIntSport | dataset_UNSW_NB15_1.py:103-104 | The result is the selection of the rows whose `sport` is an integer: same columns, each column the input's cells at those rows in order. |
| Dataset.KeepIntSportKeeps | dataset_UNSW_NB15_1.py:103-104 | Every row whose `sport` is an integer is kept, after the kept rows before it. |
| Dataset.TopValues | dataset_UNSW_NB15_1.py:110 | `value_counts().index[:n]` gives `min(n, distinct values)` distinct values of the column, in non-increasing count order. |
| Dataset.TopValuesDominate | dataset_UNSW_NB15_1.py:110 | No value outside the top list occurs more often than a value in it. |
| Dataset.TopValuesAll | dataset_UNSW_NB15_1.py:110 | When there are at most n distinct values, every value is in the top list. |
| Dataset.InMask | dataset_UNSW_NB15_1.py:112 | The mask is true exactly at the rows whose value is in the given list. |
| Dataset.KeepTopSrcip | dataset_UNSW_NB15_1.py:110-112 | The result is the selection of the rows whose `srcip` is among the 20 most frequent, in order, so at most 20 distinct `srcip` values remain. |
| Dataset.KeepTopSrcipKeeps | dataset_UNSW_NB15_1.py:110-112 | Every row whose `srcip` is among the 20 most frequent is kept, after the kept rows before it. |
| Dataset.Survives | dataset_UNSW_NB15_1.py:99-112 | When every row a mask marks passes a cell test, every row of the selection passes it, so later filters keep the earlier filters' guarantees. |
| Dataset.LaterFiltersKeepPorts | dataset_UNSW_NB15_1.py:103-112 | After the `sport` and `srcip` filters, no `dsport` is -1 and every `sport` is an integer. |
| Dataset.Converted | dataset_UNSW_NB15_1.py:93-96 | The unwanted columns are gone, the others keep their cells except `dsport`, and each `dsport` cell is its conversion; the row count stays. |
| Dataset.Preprocessed | dataset_UNSW_NB15_1.py:90-116 | The result has no `dsport` of -1, only integer `sport` values and at most 20 distinct `srcip` values, with no more rows than the input. |
| Dataset.PreprocessedPositions | dataset_UNSW_NB15_1.py:99-112 | There is one kept position per row of the result. |
| Dataset.PreprocessedRowFrom | dataset_UNSW_NB15_1.py:99-112 | Row j of the result is the converted frame's row at the j-th kept position, and that row passes the three filters. |
| Dataset.PreprocessedOrder | dataset_UNSW_NB15_1.py:99-112 | The kept positions increase, so the input order is kept. |
| Dataset.PreprocessedKeeps | dataset_UNSW_NB15_1.py:99-112 | Every converted row that passes the three filters is kept. The top 20 `srcip` values are counted after the two port filters. |
| Dataset.PreprocessedRows | dataset_UNSW_NB15_1.py:90-116 | The rows of the result are exactly the converted rows that pass the three filters, each once, in input order. |
| Dataset.PreprocessedColumns | dataset_UNSW_NB15_1.py:93 | A column survives `preprocess` iff it was present and is not unwanted. |
| Dataset.UnswNb15.Preprocess | dataset_UNSW_NB15_1.py:90-116 | The step-by-step reassignment of `data` computes `Preprocessed`. |
| Dataset.CutData | dataset_UNSW_NB15_1.py:118-128 | The columns stay and the result has at most `min(nrows, rows)` rows. Without balancing it has exactly that many. |
| Dataset.LabelMask | dataset_UNSW_NB15_1.py:122-123 | `data['Label'] == v` is true exactly at the rows whose label equals v. |
| Dataset.CutDataRows | dataset_UNSW_NB15_1.py:120-127 | Without balancing every column is its first `min(nrows, rows)` cells. With balancing every column is the first label-0 rows followed by the first label-1 rows, at most `nrows // 2` of each. |
| Dataset.CutDataLabels | dataset_UNSW_NB15_1.py:121-125 | With balancing the result holds label-0 rows first and label-1 rows after them. |
| IpBits.SplitIp | dataset_UNSW_NB15_1.py:53-54 | `split_ip` yields one integer per dot-separated field. |
| IpBits.SplitIpRejectsSeparator | dataset_UNSW_NB15_1.py:54 | A field padded with `\x1f` makes `split_ip` fail. |
| IpBits.SplitOn | dataset_UNSW_NB15_1.py:54 | `split('.')` gives at least one field, and no field contains the separator. |
| IpBits.ParseFields | dataset_UNSW_NB15_1.py:54 | `map(int, ...)` succeeds iff every field parses, giving each field's value in order. |
| IpBits.SplitOnCount | dataset_UNSW_NB15_1.py:54 | `split('.')` yields one more field than there are dots. |
| IpBits.SplitThenJoin | dataset_UNSW_NB15_1.py:54 | Joining the fields of `split` with the separator gives the string back. |
| IpBits.JoinThenSplit | dataset_UNSW_NB15_1.py:54 | Splitting a join of separator-free fields gives the fields back. |
| IpBits.SplitIpRoundTrip | dataset_UNSW_NB15_1.py:53-54 | `split_ip` of the dotted text of a list of numbers gives the list back. |
| IpBits.OctetBits | dataset_UNSW_NB15_1.py:69 | `format(n, '08b')` of an octet is 8 characters of '0'/'1' that read back as n. |
| IpBits.Format08b | dataset_UNSW_NB15_1.py:69 | `format(n, '08b')` is at least eight characters and starts with `-` exactly when n is negative. |
| IpBits.IpToBin | dataset_UNSW_NB15_1.py:68-69 | `ip_to_bin` succeeds exactly when `split_ip` does, and yields at least eight characters per field. |
| IpBits.ConcatBitsOctets | dataset_UNSW_NB15_1.py:69 | The joined bit strings have 8 characters per number, all bits, and each 8-character chunk reads back as its number. |
| IpBits.IpToBinOctets | dataset_UNSW_NB15_1.py:68-69 | For four octets `ip_to_bin` yields 32 bit characters, and each 8-bit chunk reads back as its octet. |
| Dataset.DottedQuadReady | dataset_UNSW_NB15_1.py:68-69 | The dotted text of four octets is an address `ip_to_bin` accepts. |
| Dataset.BinColumn | dataset_UNSW_NB15_1.py:72-73 | Every address cell becomes its 32-character bit string. |
| Dataset.BitColumn | dataset_UNSW_NB15_1.py:77-78 | `int(x[i])` makes each cell the integer value 0–9 of the digit at position i of its bit string. |
| Dataset.Binned | dataset_UNSW_NB15_1.py:72-73 | The two `*_bin` columns are the bit strings of `dstip` and `srcip`. |
| Dataset.Expanded | dataset_UNSW_NB15_1.py:64-81 | The frame `bitwise` returns is well formed and has the input's rows; `ExpandedColumn`, `ExpandedBits` and `ExpandedKeeps` give its columns and cells. |
| Dataset.WithBitsHas | dataset_UNSW_NB15_1.py:76-78 | After the loop, `dstip_bit_k` and `srcip_bit_k` hold character k of the bit strings as integers. |
| Dataset.WithBitsColumn | dataset_UNSW_NB15_1.py:76-78 | The loop adds exactly the bit columns below its bound and leaves every other column as it was. |
| Dataset.AddBitColumns | dataset_UNSW_NB15_1.py:76-78 | The 32-round loop builds the frame with all 64 bit columns. |
| Dataset.BitsOfBins | dataset_UNSW_NB15_1.py:69-78 | Bit column k of the binned addresses is bit k of each address. |
| Dataset.ExpandedColumn | dataset_UNSW_NB15_1.py:76-81 | After `bitwise` the columns are the old ones minus `dstip`, `srcip` and the two `*_bin`, plus the 64 bit columns. |
| Dataset.ExpandedBits | dataset_UNSW_NB15_1.py:76-78 | Column `dstip_bit_k` / `srcip_bit_k` is bit k of each row's address. |
| Dataset.ExpandedKeeps | dataset_UNSW_NB15_1.py:81 | Every other column is unchanged. |
| Dataset.BitNameFresh | dataset_UNSW_NB15_1.py:77-81 | A bit column's name differs from the four columns the expansion drops. |
| Dataset.BitNamesDiffer | dataset_UNSW_NB15_1.py:77-78 | Distinct bit columns have distinct names. |
| Dataset.BitNamesMembers | dataset_UNSW_NB15_1.py:84-86 | The appended names are exactly the bit columns below 32. |
| Dataset.AppendBitNames | dataset_UNSW_NB15_1.py:84-86 | The second loop appends `dstip_bit_i`, `srcip_bit_i` for i = 0..31, in that order, after the existing names. |
| Dataset.UnswNb15.Bitwise | dataset_UNSW_NB15_1.py:64-88 | It returns the expanded frame, appends the 64 names to the categorical columns, and changes nothing else. |
| Dataset.Loaded | dataset_UNSW_NB15_1.py:135-137 | The cut, then the preprocessing; the `Label` column survives. |
| Dataset.CutDataReady | dataset_UNSW_NB15_1.py:135-137 | Cutting keeps every column the preprocessing needs. |
| Dataset.UnswNb15.LoadData | dataset_UNSW_NB15_1.py:130-139 | The labels are the `Label` column of the cut and preprocessed frame, the data is that frame without it, and both have the same row count. |
| Dataset.UnswNb15.constructor | dataset_UNSW_NB15_1.py:19-33 | It stores `nrows` and the configuration values, then loads the data. |
| Frames.DropColumns | dataset_UNSW_NB15_1.py:93 | Exactly the named columns are removed, and the others keep their cells. |
| Frames.SetColumn | dataset_UNSW_NB15_1.py:72-78 | Assigning a column keeps the frame well formed and its row count. |
| Frames.SetColumnEffect | dataset_UNSW_NB15_1.py:72-78 | After `f[name] = values` the columns are the old ones plus `name`, which holds the values, and every other column is unchanged. |
| Frames.FilterRows | dataset_UNSW_NB15_1.py:99-112 | Boolean indexing keeps the columns, and each column becomes the mask selection of its cells. The height is the number of marked rows. |
| Frames.SelectedFrom | dataset_UNSW_NB15_1.py:99-112 | Row j of a selection is the input row at the j-th marked position. |
| Frames.SelectedHas | dataset_UNSW_NB15_1.py:99-112 | Every marked input row appears in the selection, at the index that counts the marked rows before it. |
| Frames.Selected3From | dataset_UNSW_NB15_1.py:99-112 | Row j after three successive filters is the original row at the j-th position all three keep. |
| Frames.HeadRows | dataset_UNSW_NB15_1.py:125-127 | `iloc[:n]` keeps the first `min(n, rows)` rows of every column. |
| Frames.ConcatRows | dataset_UNSW_NB15_1.py:125 | `pd.concat` puts the second frame's rows after the first's in every column. |
| Common.Where | model_FI.py:46-47 | `np.where(xs == v)[0]` lists only positions holding v, in increasing order. |
| Common.WhereComplete | model_FI.py:46-47 | Every position holding v is listed. |
| Common.Gather | model_FI.py:48 | `xs[idx]` has one element per index. |
| Common.GatherGather | model_FI.py:48 | Indexing with `idx` and then `jdx` equals indexing once with `idx[jdx]`. |
| Common.Keep | dataset_UNSW_NB15_1.py:99 | Boolean indexing keeps as many elements as the mask has true entries; with `KeepAt` and `KeepHas`, exactly the marked elements in order. |
| Common.KeepAt | dataset_UNSW_NB15_1.py:99 | Element j of a boolean-mask selection is the element at the j-th marked position. |
| Common.WhereAt | dataset_UNSW_NB15_1.py:99 | A marked position appears at the index that counts the marked positions before it. |
| Common.KeepHas | dataset_UNSW_NB15_1.py:99 | An element whose mask entry is true appears in the selection, at the index that counts the true entries before it. |
| Common.Selected3Increasing | dataset_UNSW_NB15_1.py:99-112 | The positions three successive mask selections keep increase. |
| Common.Selected3Has | dataset_UNSW_NB15_1.py:99-112 | A position that every selection marks, under each selection's renumbering, is kept. |
| Common.DistinctValues | dataset_UNSW_NB15_1.py:110 | The distinct values of a column, each once. |

## Left out

- Library internals are inputs, not models:
  - the OneHotEncoder encoding and MinMaxScaler scaling (floating point);
  - XGBoost training and its importance computation;
  - MiniBatchKMeans clustering and its `transform` distances;
  - IsolationForest training and scoring.
  A forest is a record of its parameters and training rows, and its +1/-1 answer is a function parameter of `Predict`.
- `Predict` takes the blocks of the new rows already encoded and scaled. Reusing the encoders fitted in `fit` (`transform` after `fit_transform`) is not modelled.
- `Fit` takes the clustering as a function of the matrix, the same one for both parts. MiniBatchKMeans is randomised. With `k = 0` the source fails inside the library; the model's clustering precondition cannot be met then.
- Tie order:
  - `np.argsort(...)[::-1]` and `value_counts` order ties in a way the libraries do not document;
  - the model ranks ties one fixed way;
  - its contracts state only order, bounds and domination, which hold for any tie order.
- Python's `int()` is modelled over ASCII text: the six whitespace characters it skips (space, tab, line feed, carriage return, vertical tab, form feed), sign, the `0x` prefix and underscores. Other ASCII characters, including the separators `\x1c`–`\x1f`, are rejected as in CPython. Unicode digits and Unicode spaces are not modelled.
- `load_config`, the CSV reads, and renaming the columns from the features file are file I/O. The constructor takes the configuration values and the raw frame as parameters.
- `split_data` (the randomised `train_test_split`) and the train/test fields are not modelled.
- `reset_index` in `preprocess` is not modelled. It renumbers the rows and inserts an `index` column.
- The `print` of the invalid-`dsport` count is not modelled.
- Column order in a DataFrame is not modelled. A frame maps columns to cells.
- Bit column names:
  - bit columns are keyed as `Bit(address, position)`, and `BitNameFresh`/`BitNamesDiffer` show their pandas names are distinct;
  - a raw column that already had such a name would be overwritten by pandas, which the model does not capture.
- `Dataset.UnswNb15.Bitwise` requires every address to be dotted integer fields that `format(..., '08b')` turns into 32 bits. Otherwise the source raises or makes a bit string of another length, and that error path is not modelled.
- `bitwise` is modelled although the call to it in `preprocess` is commented out in the source.
- Detector.AnomalyDetector.Fit: the source's `fit` raises in two cases, and the model does not. First, when `y` has no label-1 rows or no label-0 rows: that part is empty, its sample is empty, and IsolationForest rejects `max_samples=min(100, 0)` (model_FI.py:99-100). Second, when a contamination value is outside the range IsolationForest accepts. The model still trains a record of the empty part and ends `Fitted()` in both cases.
- `nrows` and `n_fi` are natural numbers. Negative values, which Python would slice from the end, are not modelled.
- `Fit` and `Predict` change the object's fields, so their contracts speak of the old state. `Predict` is stated against the fields `Fit` sets, not as a lemma over both calls.
- All of `experiment.py` is not part of this model: timing, metrics, printing, plotting, and the other detector variants.
