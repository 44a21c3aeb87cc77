# Review-metadata resolution, modelled in Dafny

This project models how the reviewer-suggestion tool resolves ownership metadata for one
changed file (`patchmate/heuristics/owner_files/metadata_processor/concrete_metadata_processor.py`).

- **File level.** `FileMetadataProcessor.parse_metadata` reads the file's embedded
  `@REVIEW-METADATA-BEGIN … @REVIEW-METADATA-END` block. It parses each non-empty line of the
  block into a fresh results container. Unless the container's `recursive` directive is `"0"`,
  it merges in the result of the processor for the containing directory.
- **Directory level.** `DirectoryMetadataProcessor.parse_metadata` does the same with
  `<dir>/review.metadata`. It climbs to the parent directory while the directive is truthy.
- **Failure handling.** A raised exception in a parent level is caught, and the level below keeps
  its own results.

Modules, bottom up:

- `Wrappers` (`wrappers.dfy`): `Option` and `Result`. An exception is an `Err`.
- `Paths` (`paths.dfy`): a path is an absolute flag plus a list of segments.
  - `os.path.dirname` drops the last segment. Paths without segments (`"/"` and `""`) are its fixed points.
  - `os.path.join` appends a segment.
  - A (absolute, relative) path pair is *in lockstep* when the relative path is a suffix of the absolute one.
- `Markers` (`markers.dfy`): `re.search(begin + '(.*)' + end, text, DOTALL | MULTILINE)` with
  literal markers, written as a search for the leftmost begin marker and the last end marker after
  it. It is proved equal to a declarative leftmost-longest definition of the regex match.
- `Lines` (`lines.dfy`): Python 2 `str.splitlines()` on a byte string, which breaks at `\n`,
  `\r` and `\r\n`, and `filter(None, …)`, which drops only empty strings.
- `Results` (`results.dfy`): the container and the line parser are not part of this model.
  - `ResultOps<A>` holds them as uninterpreted operations over an abstract container type `A`:
    - `empty` (`ResultsContainer()`);
    - `addContent(line, rel, acc)` (`MetadataLineWrapper(line, rel).add_content(acc)`);
    - `merge(local, parent)` (`local += parent`);
    - `recursive(acc)` (`acc.recursive`, `None` when absent).
  - `ParseMetadataBlock` is `_parse_metadata`: a loop over the non-empty lines.
  - `Recorder` is a spy container that records every `add_content` call.
- `MetadataProcessor` (`processor.dfy`): the two processor classes. Their `ParseMetadata` methods
  follow the source step by step.
  - Each method is proved equal to a specification function: `FileResolution` or `DirResolution`.
  - The filesystem is a finite map from path to `Text(content)` or `Unreadable`. `Unreadable`
    means `open`/`read` raises. `os.path.exists(p)` is `p in fs`.
  - Python's recursion limit is a `fuel` argument. A directory level entered with no fuel left
    raises `RecursionLimitExceeded`.
  - The marker pair is a parameter (`Headers`) of the specification functions; each class builds it
    from its `beginHeader`/`endHeader` constants.
  - The ghost functions `DirLevels`, `DirLookups` and `FileLookups` list the path pairs the walk
    visits and the paths it consults. `DirLevels` is an instance of `Paths.Climb`, a walk that moves
    both paths by a step function (here `dirname`) while a condition holds.
- `Resolution` (`resolution.dfy`): lemmas about these functions:
  - when each level climbs;
  - what the walk reads (frame lemmas: filesystems that agree on the consulted paths give the same result);
  - how failures are contained;
  - how the path pair moves;
  - what happens at the top of the tree.

Behaviours of the code that are easy to misread:

- **Absent directive.** The file level climbs when the directive is absent, not only when it is
  present and not `"0"`. The check is `!= "0"` (line 56).
- **`"0"` at directory level.** The directory level climbs for any truthy directive, so `"0"` climbs
  there (line 87).
- **Markers after the first span.** The captured span runs from the first begin marker to the *last*
  end marker after it: greedy `.*` with DOTALL. It does not stop at the first matching span.
- **Markerless `review.metadata`.** A `review.metadata` without markers is not treated as an empty
  block. It yields `None`, and `None.splitlines()` raises (lines 82, 23). The caller catches this,
  so that directory and everything above it contribute nothing.
- **No stop at the top.** Nothing stops the walk at the filesystem top. `dirname("/")` is `"/"`, so
  a truthy directive there is read again at every level until the recursion limit is hit. That
  error is caught and the top's results are merged in once per level (`TopLevelRepeatsUntilLimit`).
- **Unreadable changed file.** A changed file that exists but cannot be read raises out of the file
  level (line 44 is outside any `try`). It is not downgraded to an empty block.
- **Whitespace-only lines.** Lines that hold only whitespace are passed to the line parser. Only
  empty lines are dropped.

Resolving the same file twice on the same filesystem gives the same result: the specification
functions are functions of their inputs.

## Model

| member | source | states |
|---|---|---|
| `Paths.Dirname` | patchmate/heuristics/owner_files/metadata_processor/concrete_metadata_processor.py:88-89 | Keeps absoluteness. The top maps to itself. Any other path is its dirname plus one segment. |
| `Paths.Join` | patchmate/heuristics/owner_files/metadata_processor/concrete_metadata_processor.py:74 | The joined path lies directly inside the directory (its dirname is the directory) and ends with the file name. |
| `Paths.DirnameFixedPointIffTop` | patchmate/heuristics/owner_files/metadata_processor/concrete_metadata_processor.py:88 | `dirname` leaves a path unchanged exactly when it is the top (`"/"` or `""`). |
| `Paths.DirnameIterDropsSegments` | patchmate/heuristics/owner_files/metadata_processor/concrete_metadata_processor.py:88-91 | Climbing k levels removes exactly the last k segments. After as many steps as there are segments, the walk sits at the top. |
| `Paths.DirnameKeepsLockstep` | patchmate/heuristics/owner_files/metadata_processor/concrete_metadata_processor.py:58 | Applying `dirname` to both halves of a lockstep pair keeps them in lockstep. |
| `Paths.DirnameIterKeepsLockstep` | patchmate/heuristics/owner_files/metadata_processor/concrete_metadata_processor.py:88-89 | The same for any number of levels. |
| `Markers.FirstOccurrence` | patchmate/heuristics/owner_files/metadata_processor/concrete_metadata_processor.py:45-47 | A found index is an occurrence of the marker at or after the start. |
| `Markers.FirstOccurrenceIsFirst` | patchmate/heuristics/owner_files/metadata_processor/concrete_metadata_processor.py:45-47 | No occurrence comes before the one found. None is found only when none exists. |
| `Markers.LastOccurrence` | patchmate/heuristics/owner_files/metadata_processor/concrete_metadata_processor.py:45-47 | A found index is an occurrence inside the range. |
| `Markers.LastOccurrenceIsLast` | patchmate/heuristics/owner_files/metadata_processor/concrete_metadata_processor.py:45-47 | No occurrence in range comes after the one found. None is found only when none exists. |
| `Markers.SearchSpanIsLeftmostGreedy` | patchmate/heuristics/owner_files/metadata_processor/concrete_metadata_processor.py:45-49 | The span found is exactly the regex's: leftmost begin marker with an end marker after it, then the longest capture. |
| `Markers.SearchSpanFinds` | patchmate/heuristics/owner_files/metadata_processor/concrete_metadata_processor.py:79-82 | A found span is leftmost-greedy. Nothing is found exactly when no begin marker is followed by an end marker. |
| `Markers.SearchSpan` | patchmate/heuristics/owner_files/metadata_processor/concrete_metadata_processor.py:45-48 | A span it reports is a candidate match: a begin marker, then an end marker starting after it; `SearchSpanIsLeftmostGreedy` proves it is the regex's span. |
| `Markers.Search` | patchmate/heuristics/owner_files/metadata_processor/concrete_metadata_processor.py:45-49 | `re.search(...).group(1)`: a capture fits within the content together with both markers; its partner lemmas give the round trip and the leftmost-greedy span. |
| `Markers.SearchNoneIffNoSpan` | patchmate/heuristics/owner_files/metadata_processor/concrete_metadata_processor.py:48-53 | The search yields no match exactly when no begin marker is followed by an end marker. |
| `Markers.SearchIsLeftmostGreedy` | patchmate/heuristics/owner_files/metadata_processor/concrete_metadata_processor.py:45-49 | A capture is exactly the text between the markers of the leftmost-greedy span; there is none exactly when no begin marker is followed by an end marker. |
| `Markers.SpanWithinSearch` | patchmate/heuristics/owner_files/metadata_processor/concrete_metadata_processor.py:45-48 | Every candidate match starts at or after the first begin marker, an end marker is found after it, and a match starting there ends no later than the one found. |
| `Markers.SearchCaptureIsSubstring` | patchmate/heuristics/owner_files/metadata_processor/concrete_metadata_processor.py:49 | begin + captured + end occurs in the content, starting at the content's first begin marker. |
| `Markers.SearchEmbedded` | patchmate/heuristics/owner_files/metadata_processor/concrete_metadata_processor.py:45-49 | Round trip: text between markers is captured whole, newlines and inner markers included, when no begin marker comes earlier and no end marker later. |
| `Markers.SearchRoundTrip` | patchmate/heuristics/owner_files/metadata_processor/concrete_metadata_processor.py:79-82 | Round trip: `Search(begin + c + end) == Some(c)` for every `c`. |
| `Lines.LineEnd` | patchmate/heuristics/owner_files/metadata_processor/concrete_metadata_processor.py:23 | The end of a line lies in range, and is a line break unless it is the end of the text. |
| `Lines.LineEndIsFirstBreak` | patchmate/heuristics/owner_files/metadata_processor/concrete_metadata_processor.py:23 | No line break comes before the line's end. |
| `Lines.SplitLines` | patchmate/heuristics/owner_files/metadata_processor/concrete_metadata_processor.py:23 | `splitlines` returns no lines exactly for the empty text. |
| `Lines.SplitLinesHaveNoBreaks` | patchmate/heuristics/owner_files/metadata_processor/concrete_metadata_processor.py:23 | No line returned by `splitlines` contains a line break. |
| `Lines.SplitSingleLine` | patchmate/heuristics/owner_files/metadata_processor/concrete_metadata_processor.py:23 | A non-empty text without breaks is one line. |
| `Lines.SplitFirstLine` | patchmate/heuristics/owner_files/metadata_processor/concrete_metadata_processor.py:23 | The first line ends at the first `\n`, `\r` or `\r\n`, and the rest is split on its own. |
| `Lines.SplitTerminatedRoundTrip` | patchmate/heuristics/owner_files/metadata_processor/concrete_metadata_processor.py:23 | Round trip: break-free lines joined with any one of the three terminators split back into exactly those lines. |
| `Lines.NonEmptyLines` | patchmate/heuristics/owner_files/metadata_processor/concrete_metadata_processor.py:23 | `filter(None, …)` never lengthens the list. |
| `Lines.NonEmptyLinesMembers` | patchmate/heuristics/owner_files/metadata_processor/concrete_metadata_processor.py:23 | A line survives the filter exactly when it was in the list and is not empty. |
| `Lines.NonEmptyLinesAppend` | patchmate/heuristics/owner_files/metadata_processor/concrete_metadata_processor.py:23 | The filter keeps order: it distributes over concatenation. |
| `Lines.NonEmptyLinesKeepsNonEmpty` | patchmate/heuristics/owner_files/metadata_processor/concrete_metadata_processor.py:23 | A list without empty strings passes unchanged, whitespace-only lines included. |
| `Lines.OnlyBreaksGiveNoLines` | patchmate/heuristics/owner_files/metadata_processor/concrete_metadata_processor.py:23 | A block made only of line breaks leaves nothing to parse. |
| `Results.Parsed` | patchmate/heuristics/owner_files/metadata_processor/concrete_metadata_processor.py:21-26 | `_parse_metadata` raises exactly on `None`, and then with `SplitlinesOnNone`; the block `""` gives the fresh container. |
| `Results.ParseMetadataBlock` | patchmate/heuristics/owner_files/metadata_processor/concrete_metadata_processor.py:21-26 | `_parse_metadata`. It raises on `None`. Otherwise it folds the filtered lines, in order and with the given relative path, into a fresh container. |
| `Results.ApplyLines` | patchmate/heuristics/owner_files/metadata_processor/concrete_metadata_processor.py:23-25 | The `for` loop: each line, in order, is handed to `add_content` on the accumulated container. Its properties are `ApplyLinesAppend` and `ApplyLinesRecords`. |
| `Results.ApplyLinesAppend` | patchmate/heuristics/owner_files/metadata_processor/concrete_metadata_processor.py:23-25 | Adding two runs of lines is adding the first run, then the second. |
| `Results.ParsedEmptyBlock` | patchmate/heuristics/owner_files/metadata_processor/concrete_metadata_processor.py:21-26 | `""`, or a block of line breaks only, gives the fresh container. None raises. |
| `Results.ParsedKeepsWhitespaceLine` | patchmate/heuristics/owner_files/metadata_processor/concrete_metadata_processor.py:23-25 | Example: for the block `" \n\n"` the line parser sees `" "` once and never the empty line. The general fact is `Lines.NonEmptyLinesMembers` and `Lines.NonEmptyLinesKeepsNonEmpty`. |
| `Results.ApplyLinesRecords` | patchmate/heuristics/owner_files/metadata_processor/concrete_metadata_processor.py:23-25 | With the spy container, adding lines appends exactly those lines, in order, each with the same relative path. |
| `Results.ParsedAddsEachLineOnce` | patchmate/heuristics/owner_files/metadata_processor/concrete_metadata_processor.py:21-26 | `add_content` is called once per non-empty line of the block, in order, with the same relative path, starting from nothing. |
| `MetadataProcessor.Truthy` | patchmate/heuristics/owner_files/metadata_processor/concrete_metadata_processor.py:87 | Python truthiness of the directive: absent and `""` are false, `"0"` is true. |
| `MetadataProcessor.FileBlock` | patchmate/heuristics/owner_files/metadata_processor/concrete_metadata_processor.py:40-53 | Raises exactly when the file exists but is unreadable, naming that file. A missing file gives `""`. A readable file whose markers match gives the capture, and a non-empty block is always such a capture. |
| `MetadataProcessor.DirBlock` | patchmate/heuristics/owner_files/metadata_processor/concrete_metadata_processor.py:74-85 | Raises exactly when `<dir>/review.metadata` exists but is unreadable. A missing one gives `""`. A readable one gives the marker search's result: the capture, or `None` exactly when it has no markers. |
| `MetadataProcessor.FileLocal` | patchmate/heuristics/owner_files/metadata_processor/concrete_metadata_processor.py:40-55 | The file's own results: an error exactly for an unreadable existing file, the fresh container for a missing one. For a file with a block, `Resolution.EmbeddedFileLocal` gives the parse of that block. |
| `MetadataProcessor.DirLocal` | patchmate/heuristics/owner_files/metadata_processor/concrete_metadata_processor.py:74-86 | A directory's own results: an error exactly when its block raises or is `None`, the fresh container without a review.metadata. For a review.metadata with a block, `Resolution.EmbeddedDirLocal` gives the parse of that block. |
| `MetadataProcessor.DirResolution` | patchmate/heuristics/owner_files/metadata_processor/concrete_metadata_processor.py:73-95 | Raises the recursion-limit error exactly when no level is left; otherwise it raises only for its own review.metadata (unreadable, or markerless so that `None.splitlines()` raises): failures of levels above are absorbed. `Resolution.DirMergesParent` and `Resolution.DirStopsUnlessTruthy` give its value when it returns. |
| `MetadataProcessor.FileResolution` | patchmate/heuristics/owner_files/metadata_processor/concrete_metadata_processor.py:39-62 | Raises exactly when the file's own results raise; with a `"0"` directive it returns them unchanged. |
| `MetadataProcessor.DirectoryMetadataProcessor.constructor` | patchmate/heuristics/owner_files/metadata_processor/concrete_metadata_processor.py:66-69 | Stores the path pair. |
| `MetadataProcessor.DirectoryMetadataProcessor.ParseMetadata` | patchmate/heuristics/owner_files/metadata_processor/concrete_metadata_processor.py:73-95 | The step-by-step method returns or raises exactly what `DirResolution` specifies. |
| `MetadataProcessor.FileMetadataProcessor.constructor` | patchmate/heuristics/owner_files/metadata_processor/concrete_metadata_processor.py:34-37 | Stores the path pair. |
| `MetadataProcessor.FileMetadataProcessor.ParseMetadata` | patchmate/heuristics/owner_files/metadata_processor/concrete_metadata_processor.py:39-62 | The step-by-step method returns or raises exactly what `FileResolution` specifies. |
| `Resolution.FileResolutionFailsOnlyOnUnreadableFile` | patchmate/heuristics/owner_files/metadata_processor/concrete_metadata_processor.py:40-62 | The file level raises exactly when the changed file exists but cannot be read. Every failure further up is absorbed. |
| `Resolution.MissingFileHasEmptyLocal` | patchmate/heuristics/owner_files/metadata_processor/concrete_metadata_processor.py:40-42 | A missing file's local results are the fresh container. Only the directory walk can add to them. |
| `Resolution.MarkerlessFileHasEmptyLocal` | patchmate/heuristics/owner_files/metadata_processor/concrete_metadata_processor.py:43-53 | A changed file without markers yields the block `""`, so its local results are the fresh container. |
| `Resolution.EmbeddedFileLocal` | patchmate/heuristics/owner_files/metadata_processor/concrete_metadata_processor.py:43-55 | A changed file holding a block between markers yields that block, and its own results are one `add_content` per non-empty line of it, in order, each with the file's relative path. |
| `Resolution.FileClimbsUnlessZero` | patchmate/heuristics/owner_files/metadata_processor/concrete_metadata_processor.py:56-58 | The file level consults its directory exactly when the directive is not `"0"`. With `"0"` it reads only the file. With the directive absent it still reads `<dir>/review.metadata`. |
| `Resolution.FileReadsOnlyLookups` | patchmate/heuristics/owner_files/metadata_processor/concrete_metadata_processor.py:39-62 | Frame: filesystems that agree on the paths the file walk consults give the same result. |
| `Resolution.AbsentMetadataFileGivesEmptyLocal` | patchmate/heuristics/owner_files/metadata_processor/concrete_metadata_processor.py:73-86 | A directory is looked up at `join(dir, "review.metadata")`. Without that file its local results are the fresh container. |
| `Resolution.EmbeddedDirLocal` | patchmate/heuristics/owner_files/metadata_processor/concrete_metadata_processor.py:74-86 | A review.metadata holding a block between markers yields that block, and the directory's own results are one `add_content` per non-empty line of it, in order, each with the directory's relative path. |
| `Resolution.DirClimbsIffTruthy` | patchmate/heuristics/owner_files/metadata_processor/concrete_metadata_processor.py:87-91 | The directory level climbs exactly when its directive is present and non-empty, `"0"` included; with `"0"` the next level is the parent pair. |
| `Resolution.DirStopsUnlessTruthy` | patchmate/heuristics/owner_files/metadata_processor/concrete_metadata_processor.py:87-95 | A directory level whose directive is absent or empty returns its local results and visits no level above it. |
| `Resolution.DirMergesParent` | patchmate/heuristics/owner_files/metadata_processor/concrete_metadata_processor.py:87-91 | A directory level with a truthy directive whose parent level returns yields its own results merged with the parent's. |
| `Resolution.DirResolutionRaisesIff` | patchmate/heuristics/owner_files/metadata_processor/concrete_metadata_processor.py:73-86 | A directory level raises exactly when the recursion limit is hit, or its review.metadata is unreadable, or that file has no markers. |
| `Resolution.ParentFailureKeepsLocal` | patchmate/heuristics/owner_files/metadata_processor/concrete_metadata_processor.py:57-62 | At the file level, when the directory walk above raises, the file's own results are returned unchanged. |
| `Resolution.DirParentFailureKeepsLocal` | patchmate/heuristics/owner_files/metadata_processor/concrete_metadata_processor.py:90-95 | When the level above a directory raises, the directory returns its own results unchanged. |
| `Resolution.MarkerlessDirectoryHidesAncestors` | patchmate/heuristics/owner_files/metadata_processor/concrete_metadata_processor.py:79-82 | A markerless review.metadata in the file's directory leaves just the file's own results. |
| `Resolution.DirLocalReadsOnlyItsFile` | patchmate/heuristics/owner_files/metadata_processor/concrete_metadata_processor.py:73-86 | A directory's local results depend on its review.metadata alone. |
| `Resolution.DirReadsOnlyLookups` | patchmate/heuristics/owner_files/metadata_processor/concrete_metadata_processor.py:73-95 | Frame: filesystems that agree on the review.metadata paths the walk consults give the same result. |
| `Resolution.MetadataPathsAt` | patchmate/heuristics/owner_files/metadata_processor/concrete_metadata_processor.py:74 | The paths consulted are the review.metadata files of the visited levels: one per level, in order. |
| `Paths.ClimbFollowsSteps` | patchmate/heuristics/owner_files/metadata_processor/concrete_metadata_processor.py:88-91 | In any walk that moves both paths by a step function, the k-th pair is the step applied k times to both starting paths, and k is below the fuel. |
| `Resolution.DirLevelsFollowDirname` | patchmate/heuristics/owner_files/metadata_processor/concrete_metadata_processor.py:88-91 | The k-th level visited is `dirname` applied k times to both starting paths, and k is below the fuel. |
| `Resolution.DirLevelsInLockstep` | patchmate/heuristics/owner_files/metadata_processor/concrete_metadata_processor.py:88-89 | A starting pair in lockstep stays in lockstep at every level. |
| `Resolution.TopLevelRepeatsUntilLimit` | patchmate/heuristics/owner_files/metadata_processor/concrete_metadata_processor.py:87-95 | At the top with a truthy directive, the walk revisits the top as long as fuel lasts and merges its results once per level. |
| `Resolution.NoReviewMetadataGivesEmpty` | patchmate/heuristics/owner_files/metadata_processor/concrete_metadata_processor.py:83-91 | With no review.metadata on the way up, a directory resolves to the fresh container (assuming merging two empties gives an empty one). |
| `Resolution.FileWithoutMetadataGivesEmpty` | patchmate/heuristics/owner_files/metadata_processor/concrete_metadata_processor.py:40-58 | A missing or markerless file with no review.metadata above it resolves to the fresh container, under the same assumption. |
| `Resolution.LocalEntriesComeFirst` | patchmate/heuristics/owner_files/metadata_processor/concrete_metadata_processor.py:55-58 | With the spy container, the file's own entries come first. What the directory walk returned follows unchanged. |
| `Resolution.DirLocalEntriesComeFirst` | patchmate/heuristics/owner_files/metadata_processor/concrete_metadata_processor.py:87-91 | With the spy container, a directory's own entries come first; with a truthy directive and a returning parent, the parent's entries follow unchanged. |

## Left out

- `patchmate/common/git_adapter/commands.py`: only command-string constants for an external git process. It has no logic of its own.
- Real filesystem access: `os.path.exists`, `open` and `read` become a finite map from path to text or to "unreadable".
- `logger` calls: diagnostic side effects only.
- `ResultsContainer` and `MetadataLineWrapper` are not part of this model. Their internals are uninterpreted parameters: the line syntax, the type and default of `recursive`, and the order `__iadd__` merges in.
- Which owners a block yields depends on the line syntax, which is not modelled.
- The regex engine in general: the markers are searched as literals. The default headers contain no regex metacharacters; a caller-supplied header that does is not modelled.
- The `begin_header`/`end_header` constructor parameters: the specification functions take any marker pair (`Headers`), and both classes construct theirs from the default constants, as every caller does. The `metadata_file_name` parameter is fixed to `review.metadata`.
- Which paths the walk reads is stated through `FileLookups`/`DirLookups` and the frame lemmas, which say that only those paths determine the result. The order of the `exists` and `open` calls within one level is not traced.
- Paths are normalised: trailing slashes, `//`, `.` and `..` are not modelled.
- Python's recursion limit is abstracted as `fuel`. The model raises on entry to the level that has none left. In Python the error may surface at a slightly different point of the deepest frame, or again inside the `except` block.
- The ABC/metaclass mechanics.
- Python 3 text semantics: the source is Python 2, where `splitlines` on a byte string breaks only at `\n`, `\r` and `\r\n`.
- `ResultOps` operations are total: an exception from `ResultsContainer()`, `MetadataLineWrapper`, `add_content` or `+=` is not modelled. From the changed file's own block it would escape line 55, so the "raises exactly when" statements hold only for containers that do not raise.
- `Resolution.NoReviewMetadataGivesEmpty`: assumes `merge(empty, empty) == empty`, because the container's merge is not part of this model.
- `Resolution.FileWithoutMetadataGivesEmpty`: rests on the same assumption.
