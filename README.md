# Order-file converters, modelled in Dafny

The repository holds two small desktop converters for supermarket order and
inventory text files.

- **The flat converter** (`Conversor.py`) reads each chosen file line by line.
  - Every accepted line becomes an order line `barcode;description;quantity`.
  - Every rejected line is kept verbatim as an error line.
  - The two lists are written to `<stem>_formato<ext>` and `<stem>_error<ext>`.
- **The grouping converter** (`ConversorAux.py`) uses the same line rules.
  - It takes a two-digit branch key (*sucursal*) from the marker `- Suc<N> -` in each file name.
  - It skips files without such a marker.
  - It gathers the orders of all files per branch, in file order, and writes one file `pedidos_sucursal_<key>.txt` per branch.
  - The error lines of all processed files are concatenated.

The model has six modules:

- `LineRules` (`lines.dfy`) defines the shared line logic once:
  - the classifier: at least 5 digits and at most 7 `'0'` among the first 13 characters;
  - the quantity: the last maximal digit run, or 1 when a `','` sits at or after index `len(line[:13]) + len(run)`;
  - the description: the clamped slice `line[13:-len(str(quantity))]`, with digits removed, then stripped;
  - the text form of an order;
  - the per-file views `Orders` and `ErrorLines`.
- `Conversor` (`conversor.dfy`) holds `convert_file` as a loop proved against those views, and the two output-name helpers.
- `ConversorAux` (`conversor_aux.dfy`) holds:
  - the branch-key scanner, proved against a leftmost-match reading of the pattern;
  - `process_file` and `group_orders_by_sucursal` as loops over maps, proved against recursive reference functions;
  - the output file names and contents.
- `Text`, `Paths` and `Collections` hold the Python string, path and sequence helpers these rely on:
  - `str.strip`, `re.sub(r'\d', '', s)`, `str(n)` and `int(s)`;
  - `posixpath.basename`, `splitext` and `join`.

The comma test starts at index `len(line[:13]) + len(run)`, where `run` is the last digit run. That index is computed from the barcode width and the run's length, not from where the run lies in the line, so it can fall before, inside or after the run; the model uses the same index.

## Model

| member | source | states |
|---|---|---|
| LineRules.BarcodeField | Conversor.py:51 | `line[:13]` is the line's prefix of length `min(13, len(line))` |
| LineRules.IsAccepted | Conversor.py:51-52 | a line shorter than 5 characters is never accepted, and an accepted line has a digit among its first 13 characters (the thresholds read the exact counts, see `Text.CountDigitsAppend` and `Text.CountCharAppend`) |
| LineRules.VerdictIgnoresTail | Conversor.py:51-52 | only the first 13 characters decide acceptance; anything appended after them leaves the verdict unchanged |
| LineRules.LastDigitRun | Conversor.py:53-54 | the backward scan finds a run exactly when the line holds a digit, and the run is the leftmost match of `\d+(?=[^\d]*$)`; every match ends where it ends |
| LineRules.QuantityOf | Conversor.py:53-61 | the not-found sentinel appears exactly when the line holds no digit |
| LineRules.QuantityRule | Conversor.py:55-59 | for the regex's match `line[p..q]`: when some `','` lies at index `>= len(line[:13]) + (q-p)` the quantity is 1, otherwise it is the run's decimal value (which may itself be 1) |
| LineRules.AcceptedHasQuantity | Conversor.py:52-61 | an accepted line always yields a numeric quantity, so the sentinel "No se encontró cantidad" never reaches an order |
| LineRules.QuantityText | Conversor.py:62-63 | `str(quantity)` is non-empty and holds neither `';'` nor a newline |
| LineRules.DescriptionSlice | Conversor.py:62 | `line[13:-len(str(q))]` with clamping: empty when the line is not longer than 13 plus the quantity's text, else exactly the characters between |
| LineRules.DescriptionOf | Conversor.py:62 | the description has no digit, does not begin or end with whitespace, is empty when the slice end is at or before 13, and is no longer than the slice |
| LineRules.DescriptionSpec | Conversor.py:62 | the description is the infix of the digit-free slice that starts at its first non-whitespace character and is followed only by whitespace, i.e. `str.strip()` of `re.sub(r'\d', '', slice)` |
| LineRules.ExtractOrder | Conversor.py:51-63 | an order's description has no digit, and its barcode is at most 13 characters and does not begin or end with whitespace |
| LineRules.FormatOrder | Conversor.py:63 | an order line is non-empty and ends in `"\n"` |
| LineRules.FormatOrderSeparators | ConversorAux.py:126 | the line holds exactly two `';'` more than barcode and description together: the two separators, with nothing escaped |
| LineRules.FormatOrderFields | Conversor.py:63 | an order line ends in `"\n"`, and splitting the rest on `';'` gives back barcode, description and quantity text when the first two hold no `';'` |
| LineRules.SemicolonNotEscaped | ConversorAux.py:126 | for every barcode and description `a;b` (no other `';'`) and every quantity, the written line splits into four fields `barcode`, `a`, `b`, quantity: the `';'` is not escaped |
| LineRules.Orders | Conversor.py:50-63 | a file yields at most as many orders as it has lines |
| LineRules.ErrorLines | Conversor.py:64-65 | every error line is one of the file's lines and is rejected by the classifier |
| LineRules.FormatAll | ConversorAux.py:125-127 | the written lines are, position by position, the text form of each order |
| LineRules.OrdersAppend | Conversor.py:50-63 | the orders of concatenated line lists are the concatenation of their orders (order is preserved) |
| LineRules.ErrorLinesAppend | Conversor.py:64-65 | the error lines of concatenated line lists are the concatenation of their error lines |
| LineRules.LineStep | Conversor.py:50-65 | one more line extends exactly one of the two outputs: an accepted line appends its order, a rejected line appends itself |
| LineRules.PartitionCount | Conversor.py:50-65 | orders plus error lines are exactly as many as the input lines |
| LineRules.LineRouting | Conversor.py:50-65 | line `i` lands in exactly one output at the position given by the lines before it: an accepted line becomes the next order, a rejected one the next error line, unchanged |
| Text.CountDigits | Conversor.py:52 | at most the length, zero iff the string has no digit, and 1 on a one-character string iff that character is a digit |
| Text.CountDigitsAppend | Conversor.py:52 | the digit count is additive over concatenation, so with the one-character case it is the exact number of digits |
| Text.CountChar | Conversor.py:52 | at most the length, zero iff the character does not occur, and 1 on a one-character string iff it is that character |
| Text.CountCharAppend | Conversor.py:52 | the count is additive over concatenation, so with the one-character case it is the exact number of occurrences |
| Text.RemoveDigits | Conversor.py:62 | the result has no digit, is shorter by exactly the digit count, and a character occurs in it iff it is a non-digit of the input (order: `Text.RemoveDigitsInOrder`) |
| Text.RemoveDigitsInOrder | Conversor.py:62 | each non-digit at index `i` lands at index `i` minus the digits before it, so the kept characters stay in their order |
| Text.Strip | Conversor.py:62-63 | the result is no longer than the input and neither begins nor ends with whitespace |
| Text.StripSpec | Conversor.py:62-63 | the result is the infix of the input that starts at its first non-whitespace character, with only whitespace before and after it |
| Text.StripKeepsNoDigits | Conversor.py:62 | stripping a digit-free string leaves it digit-free |
| Text.Drop | Conversor.py:56 | `s[k:]` is clamped to empty when `k` exceeds the length, and otherwise holds the characters from `k` on |
| Text.NatToString | Conversor.py:63 | `str(n)` is a non-empty digit string without a leading zero (other than `"0"` itself) |
| Text.DecimalRoundTrip | Conversor.py:59 | reading back the decimal text of a number gives that number |
| Text.DigitsRoundTrip | Conversor.py:59 | a digit string without a leading zero is the decimal text of its own value |
| Text.DecimalValue | Conversor.py:59 | `int(digits)` is zero iff every digit is `'0'` (leading zeros do not count) |
| Text.SplitWithoutSep | ConversorAux.py:126 | a field without the separator reads back as one field |
| Text.SplitAtFirstSep | ConversorAux.py:126 | the first separator ends the first field |
| Paths.RFind | Conversor.py:36 | the index of the last occurrence of a character, or -1 iff it does not occur |
| Paths.BasenameSpec | Conversor.py:36 | the basename is the slash-free tail of the path, cut right after a `'/'` |
| Paths.SplitExt | Conversor.py:37 | stem plus extension is the name; a non-empty extension is one dot followed by dot-free text after a stem that is not all dots; the extension is empty only when every dot in the name has only dots before it |
| Paths.JoinPath | Conversor.py:38 | an absolute name replaces the folder; otherwise the name is appended to the folder with or without a `'/'` |
| Paths.JoinPathInFolder | Conversor.py:38 | a relative name joined to a folder starts with that folder |
| Paths.BasenameOfJoin | Conversor.py:38 | the basename of a slash-free name joined to a folder is that name |
| Paths.SplitExtAfterTagNoExt | Conversor.py:37-38 | a name without an extension keeps none after a dot-free tag is appended |
| Paths.SplitExtAfterTagWithExt | Conversor.py:37-38 | a dot-free tag inserted before an extension leaves that extension as the extension |
| Paths.SplitExtAfterTag | Conversor.py:37-38 | inserting a dot-free tag between stem and extension splits back into the tagged stem and the unchanged extension |
| Paths.TaggedNameHasNoSlash | Conversor.py:38 | inserting a slash-free tag into a slash-free name leaves it slash-free |
| Conversor.ConvertFile | Conversor.py:45-66 | the converted lines are the formatted orders of the accepted lines in order, the error lines are the rejected lines verbatim in order, and together they number the input lines |
| Conversor.TaggedFileName | Conversor.py:35-43 | the output is the folder, a `'/'` unless the folder is empty or ends in one, and a basename stem + tag + extension that splits back into the tagged stem and the unchanged extension |
| Conversor.AddFormatToFilename | Conversor.py:35-38 | the format file is the output folder joined with `<stem>_formato<ext>`, with the original extension kept |
| Conversor.AddErrorToFilename | Conversor.py:40-43 | the error file is the error folder joined with `<stem>_error<ext>`, with the original extension kept |
| Conversor.FormatAndErrorNamesDiffer | Conversor.py:35-43 | the format file and the error file of one input never have the same path, whatever the two folders |
| ConversorAux.MarkerMatchParts | ConversorAux.py:59 | a match of `- Suc(\d{1,2}) -` at `p` fixes its characters: the opening text, the group's digits and the closing text |
| ConversorAux.MarkerAtSpec | ConversorAux.py:59 | the attempt at one position succeeds iff the pattern matches there, and then returns the only group that can match there (greedy two digits before one) |
| ConversorAux.FindMarkerSpec | ConversorAux.py:59 | the forward scan returns a match at or after `p` that no other match precedes, or nothing when there is no match |
| ConversorAux.ZFill | ConversorAux.py:61 | `zfill` pads with `'0'` on the left to the width and keeps the string as its suffix |
| ConversorAux.PadKey | ConversorAux.py:61 | the key is two digits: a one-digit group gets a leading `'0'`, a two-digit group is kept |
| ConversorAux.ExtractSucursal | ConversorAux.py:57-62 | a found branch key is always exactly two digits |
| ConversorAux.ExtractSucursalNone | ConversorAux.py:57-62 | no key is returned iff no position of the name matches the marker pattern |
| ConversorAux.ExtractSucursalLeftmost | ConversorAux.py:59-61 | the key is the zero-padded group of the leftmost match |
| ConversorAux.NoDashNoBranch | ConversorAux.py:57-62 | a name without `'-'` yields no key |
| ConversorAux.FirstMarkerAfterPrefix | ConversorAux.py:59-61 | a marker after a dash-free prefix decides the key, whatever follows it, including other markers |
| ConversorAux.BranchOfOneDigit | ConversorAux.py:59-61 | `- Suc7 -` (any one digit) yields `"07"` |
| ConversorAux.BranchOfSuc12 | ConversorAux.py:59-61 | `- Suc12 -` yields `"12"` |
| ConversorAux.ProcessFile | ConversorAux.py:84-118 | error lines are the rejected lines verbatim; the dictionary is empty when no line is accepted and otherwise has the single key from the file's own name holding the file's orders in line order (the same classification as `convert_file`) |
| ConversorAux.FileBranchIsKey | ConversorAux.py:69-79 | every file whose name yields a key contributes that key |
| ConversorAux.KeyHasFile | ConversorAux.py:69-79 | every key comes from some file's name |
| ConversorAux.GroupedKeys | ConversorAux.py:78-79 | the dictionary has exactly the keys the non-skipped files' names yield, including keys whose files hold no order |
| ConversorAux.GroupedValues | ConversorAux.py:78-80 | each key holds the in-order concatenation of the orders of the files of that branch; a branch no file names has no orders |
| ConversorAux.GroupOrdersBySucursal | ConversorAux.py:64-82 | the loop's dictionary and combined errors equal the reference grouping; its keys are the files' branches and each key holds that branch's orders file after file |
| ConversorAux.TotalOrdersRemove | ConversorAux.py:78-80 | the order total of a dictionary is one key's list plus the total of the rest |
| ConversorAux.TotalOrdersAppend | ConversorAux.py:78-80 | extending (or creating) one key's list by `xs` raises the order total by `len(xs)` |
| ConversorAux.OrdersAndErrorsCoverLines | ConversorAux.py:68-80 | across all keys, orders plus combined error lines equal the line count of the non-skipped files |
| ConversorAux.CombinedErrorsAppend | ConversorAux.py:74-75 | combined errors of two batches are the concatenation of each batch's, in file order |
| ConversorAux.RecordsForAppend | ConversorAux.py:78-80 | a branch's orders over two batches are the concatenation of each batch's |
| ConversorAux.BranchesAppend | ConversorAux.py:69-79 | the keys of two batches are the union of each batch's keys |
| ConversorAux.SkipOneErrors | ConversorAux.py:69-75 | removing a file with no branch leaves the combined errors unchanged |
| ConversorAux.SkipOneBranches | ConversorAux.py:69-79 | removing a file with no branch leaves the key set unchanged |
| ConversorAux.SkipOneRecords | ConversorAux.py:69-80 | removing a file with no branch leaves every branch's orders unchanged |
| ConversorAux.SkippedFileContributesNothing | ConversorAux.py:69-72 | a file whose name yields no branch contributes neither orders nor error lines: results equal those of the batch without it |
| ConversorAux.OrdersFileName | ConversorAux.py:123 | the key reads back from the branch file name, between the 17-character `pedidos_sucursal_` and `.txt`; the name has no `'/'` when the key has none |
| ConversorAux.OrdersPathInjective | ConversorAux.py:123 | two different keys are written to two different paths in the same folder |
| ConversorAux.SaveOrdersBySucursal | ConversorAux.py:120-127 | one output file per key, named `pedidos_sucursal_<key>.txt` in the folder and holding the key's orders as text lines in order; no other file is written |

## Left out

- The tkinter/ttkthemes windows, buttons, progress bar, tooltips, `messagebox` dialogs and `filedialog` pickers are presentation only. The PIL icon loading is a foreign library call.
- The error dialog for a file without a branch is not modelled (`ConversorAux.py:71`). Only its effect is modelled: the file is skipped.
- `convert_and_save_files` and the global `input_files` / `output_format_folder` state are session plumbing around the modelled operations.
- `write_lines_to_file` and all `open` / `readlines` / `write` calls are file I/O, so they are not modelled. An input file is a path plus the sequence of its lines, each keeping its terminator. An output is a path mapped to its lines.
- `save_errors_to_folder` re-reads each file and writes the second result of `convert_file` to `AddErrorToFilename`, which are both modelled. The re-reading is I/O.
- The `errores.txt` path of the combined errors is a fixed name. Writing it is I/O.
- `QuantityOf` / `QuantityRule`: `int(math.ceil(float(digits)))` is modelled as the exact value of the digit string. A `float` loses precision once the run's value needs more than 53 bits, and the model does not reproduce that loss. On a digit run whose value exceeds the largest double (about 1.8e308), `float` gives infinity and `math.ceil` raises `OverflowError`. Nothing catches it, so the whole batch stops: `group_orders_by_sucursal` returns nothing and no branch file is written, and the `convert_file` call inside the loop of `convert_and_save_files` (`Conversor.py:20`) ends that loop, so none of the remaining files is converted. The model returns the exact value instead.
- `IsDigit` treats only ASCII `'0'..'9'` as digits. Python's `\d` also matches other Unicode decimal digits.
- `Paths` follows POSIX path rules (`posixpath`). Windows separators and drive letters (`ntpath`) are not modelled.
- `SaveOrdersBySucursal` returns a map from path to lines. The order in which a Python dictionary writes its files is not modelled. Different keys go to different paths, so the order does not change the files' contents.
- `ZFill` is only used on digit strings. Python's sign handling in `zfill` (a leading `+` or `-`) is not modelled.
- Text-mode newline translation when reading is not modelled. Lines arrive as the reader yields them.
- `ExtractOrder` does not itself promise a numeric quantity for accepted lines. That fact is stated and proved separately as `AcceptedHasQuantity`.
- `ExtractSucursal`'s own contract only bounds the key's shape. What it returns is stated by `ExtractSucursalNone` and `ExtractSucursalLeftmost`.
- Concrete file-name examples are stated for every dash-free prefix and suffix (`BranchOfOneDigit`, `BranchOfSuc12`) rather than for one literal name.
