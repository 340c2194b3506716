# Section-stack bookkeeping of `alignment_helper.py`, in Dafny

This project models the part of `gene_expression_images/alignment_helper.py`
that turns an ISH dataset's metadata into a 3D volume. It covers five steps:

- **Alignment parameters.** `read_alignment3d` and `read_alignment2d` collect
  the affine parameter families `trv_00..trv_11`, `tvr_00..tvr_11`,
  `tsv_00..tsv_05` and `tvs_00..tvs_05` in index order (module `Alignment`).
  The `'%02d'` spelling of the keys, and its inverse, are in `Format`.
- **Stack statistics.** `compute_section_info` gives the smallest section
  number, the span, the smallest gap between numerically neighbouring
  section numbers and the smallest resolution (module `SectionInfo`). It is
  built from models of numpy's `sort` and `diff` (module `Sorting`).
- **Normalisation.** `read_json` copies fields from the parsed metadata into
  the `data` record and derives `section_spacing` and `section_origin` (module
  `ReadJson`). The input is a parsed JSON value (`Payload.Value`: null, booleans, numbers, strings, lists and objects), not text.
- **Output allocation.** `initialize_output` computes the sizes, spacing and
  origin of the volume, the mask and the 2D reference canvas, then allocates
  two zero-filled 3D byte arrays (module `Geometry`). Python's `round(x, 0)`
  rounds half to even; the image library's physical-point-to-index
  conversion rounds half up. Both are in `Rounding`, over exact reals.
- **Population.** `populate_output` visits the sections in list order. For
  each one it builds the file name `'%04d_%d.jpg'`, loads the resampled
  slice, finds the slice index of `section_number * section_thickness` and
  overwrites that slice of the volume with the image and of the mask with
  ones (module `Populate`). Three names are used below:
  - `Step` is the outcome of one section: one write, or an error.
  - `Run` is the writes made in order, plus the error that stopped the loop.
  - `PopulateOutput` is the loop over the arrays, proved against `Run`.

Where the source would raise an exception, the model returns an `Errors.Error`:

- a missing key or a wrong type;
- fewer than two sections;
- division by a zero resolution or a zero gap;
- a negative image size;
- a zero slice spacing;
- an unreadable image;
- a slice index outside the volume.

`min_section_gap` is the smallest difference between numerically neighbouring
section numbers, zero included. Two sections sharing a number therefore give
gap 0 (`SectionInfo.GapZeroIffRepeat`), and then `initialize_output` divides
by zero (`Geometry.RepeatedSectionRejected`).

## Model

All source paths are in `gene_expression_images/alignment_helper.py`.

| member | source | states |
|---|---|---|
| Alignment.ReadGroup | gene_expression_images/alignment_helper.py:48-49 | succeeds exactly when all `n` keys `<t>_%02d` are present. The result has `n` values, and element `p` is the entry for key `p`. Otherwise it fails with the first missing key, all earlier keys being present |
| Alignment.ReadAlignment3d | gene_expression_images/alignment_helper.py:40-50 | succeeds exactly when the value is an object holding all 24 `trv_NN`/`tvr_NN` keys; `trv` and `tvr` then have 12 values each, element `p` being the entry of key `p` |
| Alignment.ReadAlignment2d | gene_expression_images/alignment_helper.py:52-62 | the same for `tsv` and `tvs`, with 6 values each |
| Alignment.ParamKeyInjective | gene_expression_images/alignment_helper.py:48 | distinct indices give distinct keys, so each list element comes from its own entry |
| Alignment.KeySpelling | gene_expression_images/alignment_helper.py:48 | the keys are spelled `trv_00`, `tvr_05`, `trv_11`, `tvs_05` |
| Alignment.MissingTvr05Rejected | gene_expression_images/alignment_helper.py:47-49 | an object with every `trv` key and `tvr_00..tvr_04` but no `tvr_05` fails with `MissingField("tvr_05")` |
| Alignment.FirstMissingKey | gene_expression_images/alignment_helper.py:48-49 | the group read fails on its first absent key, whatever keys follow it |
| Format.ParseZeroPadded | gene_expression_images/alignment_helper.py:170 | parsing `'%0<w>d' % n` gives back `n`, for every integer and width, negative numbers included |
| Format.ZeroPaddedInjective | gene_expression_images/alignment_helper.py:170 | distinct integers never get the same zero-padded spelling |
| Format.PaddedWidth | gene_expression_images/alignment_helper.py:170 | a number from 0 to `10^w - 1` is spelled with exactly `w` characters |
| Format.DigitsValue | gene_expression_images/alignment_helper.py:170 | the decimal value of the digits of `n` is `n` |
| Sorting.Sort | gene_expression_images/alignment_helper.py:67 | the result ascends and is a permutation (same multiset) of the input |
| Sorting.Diff | gene_expression_images/alignment_helper.py:71 | one element fewer than a non-empty input, and empty for an empty input; element `i` is `s[i+1] - s[i]` |
| Sorting.MinReal | gene_expression_images/alignment_helper.py:76-79 | the result is an element of the list and no element is smaller |
| Sorting.SortExtremes | gene_expression_images/alignment_helper.py:67-69 | the first and last elements of the sorted list are the least and greatest elements of the input |
| Sorting.SortedUnique | gene_expression_images/alignment_helper.py:67 | two ascending lists with the same multiset are equal, so the sort result depends only on the multiset |
| Sorting.RepeatGivesZeroDiff | gene_expression_images/alignment_helper.py:71-73 | a repeated value gives a 0 among the differences of the sorted list |
| Sorting.ZeroDiffGivesRepeat | gene_expression_images/alignment_helper.py:71-73 | a 0 among the differences of the sorted list comes from a repeated value |
| Rounding.RoundHalfEven | gene_expression_images/alignment_helper.py:137-139 | Python's `round(x, 0)`: the result is within one half of `x`, and on a tie (exactly one half away) it is even |
| Rounding.RoundHalfUp | gene_expression_images/alignment_helper.py:184 | the point-to-index rounding `floor(x + 1/2)`: the result is more than `x - 1/2` and at most `x + 1/2`, so a tie goes up |
| Rounding.RoundIntegral | gene_expression_images/alignment_helper.py:139 | both roundings leave a whole number unchanged |
| Rounding.RoundHalfUpBelowNext | gene_expression_images/alignment_helper.py:139 | rounding `x` half up never exceeds rounding `y + 1` half to even when `x <= y`, which bounds a slice index by the slice count |
| SectionInfo.ComputeSectionInfo | gene_expression_images/alignment_helper.py:64-81 | succeeds exactly when there are at least two sections; otherwise fails with the section count (both `indices[0]`/`diff[0]` need them) |
| SectionInfo.SectionInfoMeaning | gene_expression_images/alignment_helper.py:66-79 | `min_section_number` is the least section number. The least plus the span is the greatest number, and the span is at least 0. The gap is the least difference of sorted neighbours and is at least 0. `min_resolution` is the least resolution. Differing resolutions do not fail |
| SectionInfo.OrderIndependent | gene_expression_images/alignment_helper.py:64-81 | two section lists with the same multisets of numbers and of resolutions give the same result, whatever their order |
| SectionInfo.NumbersOrderIndependent | gene_expression_images/alignment_helper.py:66-73 | the same multiset of section numbers gives the same list length, smallest number, span and gap |
| SectionInfo.ResolutionOrderIndependent | gene_expression_images/alignment_helper.py:75-79 | the same multiset of resolutions gives the same smallest resolution |
| SectionInfo.GapZeroIffRepeat | gene_expression_images/alignment_helper.py:71-73 | the gap is 0 exactly when two sections share a number (zero is not filtered out) |
| SectionInfo.AscendingStack | gene_expression_images/alignment_helper.py:66-73 | when the numbers and their differences already ascend, the statistics are the first number, last minus first, and the first difference |
| SectionInfo.ExampleSections | gene_expression_images/alignment_helper.py:66-73 | sections 10, 13, 17 give smallest number 10, span 7, gap 3 |
| SectionInfo.ExampleOffGridSections | gene_expression_images/alignment_helper.py:66-73 | sections 10, 12, 14, 17 give smallest number 10, span 7, gap 2 |
| ReadJson.ReadSectionImage | gene_expression_images/alignment_helper.py:104-109 | succeeds exactly when the record is an object with `section_number`, `width`, `height`, `resolution` and a readable `alignment2d`. Those five fields are copied, and nothing else is kept |
| ReadJson.ReadEach | gene_expression_images/alignment_helper.py:102-110 | succeeds exactly when every record reads. The result keeps input order and length, element `i` being record `i` read. Otherwise it fails with the error of the first bad record, all earlier ones reading |
| ReadJson.Assemble | gene_expression_images/alignment_helper.py:112-120 | succeeds exactly with two or more sections. The section list is kept as given, and id, treatment, plane of section, age, thickness and 3D alignment are copied. The statistics are those of `compute_section_info`. Spacing is gap × thickness and origin is smallest number × thickness |
| ReadJson.ReadNames | gene_expression_images/alignment_helper.py:93-95 | succeeds exactly when the three descriptive paths exist, and returns the values found at them, uninterpreted |
| ReadJson.ReadHeader | gene_expression_images/alignment_helper.py:89-98 | succeeds exactly when `payload[0]` is an object with an integer `id`, the three descriptive paths, a numeric `section_thickness`, a readable `alignment3d` and a `section_images` list. On success each header field is the value at its path, and the raw section list is returned |
| ReadJson.Normalize | gene_expression_images/alignment_helper.py:89-120 | fails with the header's error when the header does not read. Otherwise it succeeds exactly when every section record reads and there are at least two, failing with `TooFewSections` when all read but fewer than two. A normalised dataset is well formed, carries the header's six fields, and its section list corresponds element by element to the payload's `section_images` |
| ReadJson.NormalizeCopiesPayload | gene_expression_images/alignment_helper.py:89-120 | a normalised dataset's id, names, thickness and 3D alignment are the payload's own values, and spacing and origin are scaled by the payload's thickness |
| ReadJson.ReadJsonPayload | gene_expression_images/alignment_helper.py:89-122 | the record-appending loop returns exactly `Normalize(payload)` |
| ReadJson.FailurePersists | gene_expression_images/alignment_helper.py:102-110 | once a prefix of the section list fails, the whole list fails with the same error |
| ReadJson.ReadOneMore | gene_expression_images/alignment_helper.py:102-110 | reading one more record appends it, or fails with its error |
| ReadJson.WellFormedFacts | gene_expression_images/alignment_helper.py:114-120 | a well-formed dataset has at least two sections and least/greatest numbers `msn`/`msn + span`. Its span and gap are non-negative, the gap being zero exactly when a number repeats. Spacing and origin are in thickness units |
| ReadJson.ExampleStack | gene_expression_images/alignment_helper.py:114-120 | sections 10, 13, 17 with thickness 25 give min 10, span 7, gap 3, spacing 75, origin 250 |
| Geometry.OutputLayout | gene_expression_images/alignment_helper.py:127-153 | fails in source order: zero in-plane spacing, then zero gap, then a negative size, then a zero slice spacing. Otherwise both images are `(round(w/xyres), round(h/xyres), round(span/gap + 1))` with spacing `(xyres, xyres, section_spacing)` and origin `(0, 0, section_origin)`. The canvas has the first two sizes and spacings, and its origin equals its spacing |
| Geometry.SliceCountOnGrid | gene_expression_images/alignment_helper.py:139 | when the span is a whole number of gaps, the slice count is `span / gap + 1` |
| Geometry.InPlaneSpacingSign | gene_expression_images/alignment_helper.py:127-128 | `min_resolution * 2^d` is zero exactly when the resolution is, and positive exactly when it is |
| Geometry.RepeatedSectionRejected | gene_expression_images/alignment_helper.py:139 | a well-formed dataset with a repeated section number and a nonzero resolution fails with `ZeroGap` |
| Geometry.DistinctSectionsAllocate | gene_expression_images/alignment_helper.py:137-149 | distinct section numbers, a positive resolution, a nonzero thickness and a non-negative standard size give an allocation with at least one slice |
| Geometry.ExampleSliceCount | gene_expression_images/alignment_helper.py:139 | sections 10, 13, 17 give 3 slices |
| Geometry.IndexRoundTrip | gene_expression_images/alignment_helper.py:184 | the physical z of slice `k` converts back to index `k` |
| Geometry.Output.constructor | gene_expression_images/alignment_helper.py:143-149 | two distinct, fresh, zero-filled byte arrays of the volume size |
| Geometry.InitializeOutput | gene_expression_images/alignment_helper.py:125-160 | fails with the error of `OutputLayout`. Otherwise it returns fresh zero-filled volume and mask of that layout |
| Populate.FileNameRoundTrip | gene_expression_images/alignment_helper.py:170 | the section number and the dataset id can be read back from `'%04d_%d.jpg'`, so different sections get different files |
| Populate.FourDigitPrefix | gene_expression_images/alignment_helper.py:170 | a section number from 0 to 9999 fills exactly the first four characters, with digits of its value, followed by `_` |
| Populate.WriteSlice | gene_expression_images/alignment_helper.py:186-187 | slice `z` of the volume becomes the image and slice `z` of the mask becomes 1. Every other voxel is unchanged |
| Populate.PopulateSection | gene_expression_images/alignment_helper.py:170-187 | one section: on an error (unreadable image, index outside the volume) nothing changes. Otherwise its slice is overwritten as in `WriteSlice` |
| Populate.PopulateOutput | gene_expression_images/alignment_helper.py:168-187 | the loop returns the error of `Run` over the sections' steps. Every volume voxel equals the last write to its slice, or its old value if there is none. Every mask voxel is 1 if its slice was written, else its old value |
| Populate.RunOneMore | gene_expression_images/alignment_helper.py:168-187 | one more step appends its write or records its error |
| Populate.ErrorIsFinal | gene_expression_images/alignment_helper.py:168-187 | after an error no further step changes anything |
| Populate.RunMeaning | gene_expression_images/alignment_helper.py:168-187 | the loop completes exactly when every step succeeds, with one write per step. Otherwise it stops at the first failing step with its error. Write `i` is always step `i`'s |
| Populate.FirstFailureStops | gene_expression_images/alignment_helper.py:168-187 | the loop stops with the error of the first failing step |
| Populate.LastWriteMeaning | gene_expression_images/alignment_helper.py:186-187 | a slice has no last write exactly when no write targets it. Otherwise the last write is the latest one targeting it |
| Populate.SectionWrites | gene_expression_images/alignment_helper.py:183-187 | write `i` goes to section `i`'s slice index, lies inside the volume, and carries the slice loaded from that section's file |
| Populate.MaskMarksSectionSlices | gene_expression_images/alignment_helper.py:186-187 | a slice is written, so marked in the mask, exactly when a processed section maps to it |
| Populate.LastSectionWins | gene_expression_images/alignment_helper.py:186 | a slice holds the image of the last processed section mapping to it |
| Populate.InitializeAndPopulate | gene_expression_images/alignment_helper.py:125-187 | allocating and then populating: a layout error is returned as is. Otherwise the loop's error is that of `Run`; every mask voxel is 0 or 1, and 1 exactly when a processed section maps to its slice; a volume slice no processed section maps to stays all zero |
| Populate.FilledFromZero | gene_expression_images/alignment_helper.py:186-187 | from zero-filled images, a mask voxel is 1 exactly when a processed section maps to its slice, else 0. A slice no section maps to stays all zero |
| Populate.StackIndex | gene_expression_images/alignment_helper.py:183-184 | a section's slice index is `round_half_up((n - min_section_number) / min_section_gap)`; the thickness cancels |
| Populate.SectionSliceIndex | gene_expression_images/alignment_helper.py:183-184 | the same for the volume `initialize_output` allocates |
| Populate.SliceIndexBounds | gene_expression_images/alignment_helper.py:183-184 | every section's slice index lies between 0 and `zsize` inclusive. It is never below the volume, and at most one past its end |
| Populate.OnGridSliceIndex | gene_expression_images/alignment_helper.py:183-184 | when every offset is a whole number of gaps, the index is `(n - min) / gap` and is below `zsize` |
| Populate.OnGridRunCompletes | gene_expression_images/alignment_helper.py:168-187 | on the grid with every image loading, the loop completes and each section goes to its number of gaps |
| Populate.OnGridDistinctSlices | gene_expression_images/alignment_helper.py:183-184 | on the grid, distinct section numbers go to distinct slices |
| Populate.OnGridEachSectionOwnsSlice | gene_expression_images/alignment_helper.py:183-187 | on the grid, with distinct numbers and every image loading, each section's image ends up in its own slice |
| Populate.OffGridSectionOverflows | gene_expression_images/alignment_helper.py:183-186 | off the grid the volume can be one slice short. Sections 10, 12, 14, 17 give `zsize = round(4.5) = 4`, but section 17's index rounds 3.5 up to 4. So even with every image loading, the loop stops with `ZIndexOutOfRange(17, 4)` |

## Left out

- File and network I/O: the `open`/`json.load` of `read_json` and of the atlas metadata in `initialize_output`. The parsed payload and the `standard_size` entry are inputs.
- `read_atlas`, `resample_to_atlas` and `write_volumes` are not part of this model. They read and write NIfTI and transform files, and compose and resample through the image library.
- `gene_expression_helper.py` is not part of this model: it is HTTP queries and downloads.
- Image processing in `populate_output` is a loader parameter (`Populate.Loader`), from a file name and the `tvs` parameters to a canvas-sized byte grid or nothing. This covers JPEG decoding, channel selection, `InvertIntensity`, the `pow(2, d)` spacing set on the slice and `Resample`. Interpolation and the affine transform themselves are not modelled.
- Floating point: resolutions, thickness and sizes are exact reals, and the two roundings are written out on reals. IEEE rounding error is not modelled.
- Pixel contents of the reference canvas: only its size, spacing and origin are modelled, because its pixels are never read.
- The x and y components of the point-to-index conversion: only the z index of point `(0, 0, z)` is used by the source.
- ReadJson.ReadSectionImage: adds type checks the source does not make. `section_number` must be an integer and `resolution` a number. A float-valued section number such as `10.0` is accepted by the source (`np.sort`, `np.diff` and `'%04d'` all take it), while the model fails with `WrongType`.
- ReadJson.ReadHeader: likewise `id` must be an integer and `section_thickness` a number. A float-valued id such as `123.0` works in the source's `'%d'` file name, while the model fails with `WrongType`.
- numpy's int64 arithmetic: `np.sort` turns the section numbers into an int64 array, so `np.diff` and the span wrap around past 2^63. The model uses unbounded integers.
- The default arguments `downsample_factor = 3` of `initialize_output` and `channel = BLUECHANNEL` of `populate_output` are not modelled as defaults. The factor is always passed, and channel selection is part of the loader.
- Slice assignment outside the volume: the model stops with `ZIndexOutOfRange` when the index is `zsize` or more. This assumes the image library's slice assignment rejects such an index, which the source itself does not show.
- Geometry.OutputLayout: the downsample factor is a natural number. A negative factor would make `pow(2, d)` fractional.
- Geometry.OutputLayout: a zero gap is reported as `ZeroGap`. In the source, numpy's integer division by zero gives `inf` and `int()` then raises.
- Populate.Step: a negative slice index is reported as out of range. The image library might accept it as an index from the end. `Populate.SliceIndexBounds` shows it never arises for a well-formed dataset.
