# KNIME 3-D viewer: dimension bookkeeping and volume cache

This project models the layer of the KNIME Image Processing 3-D viewer that decides what goes on
screen and what gets computed. It covers:

- **Axis** (`Viewer3DNodeAxis`, module `AxisState`). One image dimension with a fixed index and extent.
  It keeps a sorted, non-empty selection of displayed indices and one manipulated index, and the
  manipulated index always lies in that selection.
- **Axis set** (`Viewer3DNodeAxes`, module `AxisSet`). The axes of an image are split into a displayed
  list and a hidden list, and `displayAxis` swaps one axis between the two. The set enumerates one
  volume descriptor for each combination of the hidden axes' selections (`appendNextDim`). Each
  descriptor (`Volume`) records a depth per axis and has a cache key, its `getCacheString`.
- **Grid builder** (`Viewer3DNodeImageToVTK`, module `ImageToVtk`). It turns a descriptor into a VTK
  image grid: dimensions, zero origin, spacing, and a flat scalar array laid out in z/y/x order. It
  publishes load progress while it samples and keeps an optional cache of grids by key.
- **Load events** (`LoadImageEvent`, modules `LoadImageEvents` and `EventBus`). The range-checked
  progress event, and the event service reduced to the sequence of events published on it.
- **Volume cache** (`Viewer3DNodeImageAdmin`, module `ImageAdmin`). Renderable volumes are cached by
  key in insertion order. The cache can be switched on and off, and it tracks a current volume and a
  mapper choice. Of `Viewer3DNodeVolume`, it models only its deep copy of the descriptor, its
  transfer-function bundles, its mapper tag and its release.
- **Cube selector** (`AbstractCubeSelector`, module `CubeSelector`). One checkbox per axis and a FIFO
  queue of active (displayed) axes. A click on a hidden axis's box retires the oldest active axis and
  swaps the two in the axis set.
- **Screenshot** (`Viewer3DNodeScreenshot`, module `Screenshot`). The list of magnification levels, the
  selected magnification and format, and the numbering of the shots taken.

`Outcomes` holds the `Result`/`Outcome`/`Option` types. Java exceptions become `Failure` values
carrying `NullPointer`, `IllegalArgument`, `IndexOutOfBounds`, or `NotEnoughDims`
(`Viewer3DNodeNotEnoughDimsException`). `Decimal` is `Integer.toString` with its inverse.

Worth knowing:

- **The cache key depends on order.** The comment at
  `Viewer3DNodeImageAdmin.java:71-72` says the cache ignores the order of the dimensions, but the
  key concatenates the displayed labels in list order and has no separators.
  `AxisSet.DisplayedOrderMatters` proves that X, Y, Z and Z, X, Y get different keys.
  `AxisSet.KeyCollision` proves that a hidden axis T at depth 11 and a hidden axis T1 at depth 1
  share the key `T11`. The model follows the code.
- **getManipulatedVolume fills depth slots by list position.** It writes slot `i + |displayed|` for
  hidden axis `i`, while the `Volume` constructor reads slot `axis.index`. The model keeps this, and
  `AxisSet.ManipulatedDepthIsPositional` proves that a hidden axis whose index is one of the first
  `|displayed|` slots records depth 0, while an axis whose index is `|displayed| + i`, for its list
  position `i`, records its manipulated index.
- **Volumes built while caching is off** are never stored, so `delete` does not release them.
- **The progress counter.** With `N` samples and `step = N / 100`, progress is published when
  `count % step == 100`:
  - for `step > 100` exactly the values 0..99 are published, each once and in order (so the
    `LoadImageEvent` constructor cannot throw);
  - for `0 < step <= 100` nothing is published;
  - for `0 < N < 100` the modulo by zero throws.

## Model

Source paths are relative to the repository root.

| member | source | states |
|---|---|---|
| AxisState.SortedOfProperties | org.knime.knip.vtk.base/src/org/knime/knip/view3d/image/Viewer3DNodeAxis.java:155-156 | the reference sort of an int array is ascending and a permutation of its input (duplicates kept) |
| AxisState.SortedUnique | org.knime.knip.vtk.base/src/org/knime/knip/view3d/image/Viewer3DNodeAxis.java:155-156 | two ascending sequences with the same elements and multiplicities are equal, so sorting has one answer |
| AxisState.SortInPlace | org.knime.knip.vtk.base/src/org/knime/knip/view3d/image/Viewer3DNodeAxis.java:156 | Arrays.sort leaves the array holding the sorted permutation of its old contents |
| AxisState.Axis.constructor | org.knime.knip.vtk.base/src/org/knime/knip/view3d/image/Viewer3DNodeAxis.java:108-114 | a new axis keeps label, extent and index, displays [0] and manipulates 0, and satisfies the axis invariant |
| AxisState.Axis.Copy | org.knime.knip.vtk.base/src/org/knime/knip/view3d/image/Viewer3DNodeAxis.java:121-127 | the copy constructor gives an axis agreeing with the original on every field |
| AxisState.Axis.SetDisplayed | org.knime.knip.vtk.base/src/org/knime/knip/view3d/image/Viewer3DNodeAxis.java:137-170 | accepted iff the array is non-empty with every entry in 0..extent-1; a rejection changes nothing; on success the caller's array is sorted in place and becomes the selection, and the manipulated index stays if still displayed, else becomes the smallest displayed one |
| AxisState.Axis.SetManipulated | org.knime.knip.vtk.base/src/org/knime/knip/view3d/image/Viewer3DNodeAxis.java:179-203 | succeeds iff the value is displayed and then sets it; otherwise IllegalArgument and nothing changes; the axis invariant is kept |
| AxisState.Axis.GetDisplayedAsString | org.knime.knip.vtk.base/src/org/knime/knip/view3d/image/Viewer3DNodeAxis.java:228-236 | one decimal string per displayed index, same order and length, each reading back to its index |
| AxisSet.RemoveFirst | org.knime.knip.vtk.base/src/org/knime/knip/view3d/image/Viewer3DNodeAxes.java:357-358 | List.remove drops exactly one occurrence of a present element and leaves a list without it unchanged |
| AxisSet.IndexOf | org.knime.knip.vtk.base/src/org/knime/knip/view3d/image/Viewer3DNodeAxes.java:357-358 | the position List.remove looks up: the first occurrence of a present element |
| AxisSet.RemoveAt | org.knime.knip.vtk.base/src/org/knime/knip/view3d/image/Viewer3DNodeAxes.java:357-358 | removing the first occurrence keeps the elements before and after it, in order |
| AxisSet.RemoveFirstOrder | org.knime.knip.vtk.base/src/org/knime/knip/view3d/image/Viewer3DNodeAxes.java:357-358 | List.remove of a present element drops exactly its first occurrence and keeps the rest in order |
| AxisSet.Volume.constructor | org.knime.knip.vtk.base/src/org/knime/knip/view3d/image/Viewer3DNodeAxes.java:79-92 | the descriptor shares the given lists and maps each axis of both to depths[axis.index] |
| AxisSet.Volume.Copy | org.knime.knip.vtk.base/src/org/knime/knip/view3d/image/Viewer3DNodeAxes.java:99-115 | the copy constructor makes fresh lists of fresh axis copies, each mapped to its original's depth, and no other key |
| AxisSet.CopyList | org.knime.knip.vtk.base/src/org/knime/knip/view3d/image/Viewer3DNodeAxes.java:117-125 | copyList gives a fresh list of fresh copies of the axes, in order |
| AxisSet.CopiedDepths | org.knime.knip.vtk.base/src/org/knime/knip/view3d/image/Viewer3DNodeAxes.java:105-114 | the copied map sends each copy to its original's depth and has exactly the copies as keys |
| AxisSet.Volume.DeepCopy | org.knime.knip.vtk.base/src/org/knime/knip/view3d/image/Viewer3DNodeAxes.java:141-143 | deepCopy succeeds iff every axis has a recorded depth; the copy shares no list or axis, has the same key and the same depths |
| AxisSet.Volume.GetDepth | org.knime.knip.vtk.base/src/org/knime/knip/view3d/image/Viewer3DNodeAxes.java:160-162 | the recorded depth of a mapped axis; NullPointer exactly when the axis has none |
| AxisSet.Volume.GetDepths | org.knime.knip.vtk.base/src/org/knime/knip/view3d/image/Viewer3DNodeAxes.java:172-184 | succeeds iff every hidden axis is mapped and every axis indexes a slot; then, over distinct slots, a displayed axis's slot holds its first displayed index (also when a hidden axis shares it), any other hidden slot its depth, every other slot 0; on failure the first failing hidden axis decides (NullPointer when unmapped, IndexOutOfBounds otherwise), and past the hidden loop a displayed slot out of range is IndexOutOfBounds |
| AxisSet.Volume.DepthsWrittenAt | org.knime.knip.vtk.base/src/org/knime/knip/view3d/image/Viewer3DNodeAxes.java:172-184 | the array getDepths returns, slot by slot: displayed slots hold the first displayed index and win over hidden ones, other hidden slots hold the mapped depth, all others 0 |
| AxisSet.Volume.HiddenWrittenAt | org.knime.knip.vtk.base/src/org/knime/knip/view3d/image/Viewer3DNodeAxes.java:175-177 | after the hidden loop each hidden axis's slot holds its mapped depth and every other slot keeps its value |
| AxisSet.DisplayedWrittenAt | org.knime.knip.vtk.base/src/org/knime/knip/view3d/image/Viewer3DNodeAxes.java:179-181 | after the displayed loop each displayed axis's slot holds its first displayed index and every other slot keeps its value |
| AxisSet.Volume.WriteHiddenDepths | org.knime.knip.vtk.base/src/org/knime/knip/view3d/image/Viewer3DNodeAxes.java:175-177 | passes iff every hidden axis is mapped and indexes a slot, writing each depth into its slot in list order; otherwise the first bad axis decides the error: NullPointer when unmapped (the unboxing comes before the store), else IndexOutOfBounds |
| AxisSet.Volume.WriteDisplayedDepths | org.knime.knip.vtk.base/src/org/knime/knip/view3d/image/Viewer3DNodeAxes.java:179-181 | the displayed loop writes each displayed axis's first index into its slot, in list order, or fails on a slot out of range |
| AxisSet.Volume.GetCacheString | org.knime.knip.vtk.base/src/org/knime/knip/view3d/image/Viewer3DNodeAxes.java:210-225 | the StringBuilder loop yields the displayed labels in order, then label and decimal depth of each hidden axis ("null" when unmapped) |
| AxisSet.SameLabelText | org.knime.knip.vtk.base/src/org/knime/knip/view3d/image/Viewer3DNodeAxes.java:215-217 | the displayed part of the key depends only on the labels in order |
| AxisSet.SameHiddenText | org.knime.knip.vtk.base/src/org/knime/knip/view3d/image/Viewer3DNodeAxes.java:219-222 | the hidden part of the key depends only on the labels and depth texts in order |
| AxisSet.DisplayedOrderMatters | org.knime.knip.vtk.base/src/org/knime/knip/view3d/image/Viewer3DNodeAxes.java:215-217 | displayed X,Y,Z and Z,X,Y give the different keys XYZ and ZXY, contrary to the admin's comment |
| AxisSet.KeyCollision | org.knime.knip.vtk.base/src/org/knime/knip/view3d/image/Viewer3DNodeAxes.java:219-222 | without separators two different hidden configurations share the key T11 |
| AxisSet.KeysOf | org.knime.knip.vtk.base/src/org/knime/knip/view3d/image/Viewer3DNodeAxes.java:397-399 | the loop of getCacheStrings collects each descriptor's key in order |
| AxisSet.ClampedCount | org.knime.knip.vtk.base/src/org/knime/knip/view3d/image/Viewer3DNodeAxes.java:298 | the displayed count is at least MINDIM = 1 and equals the argument when that is already at least 1 |
| AxisSet.Axes.New | org.knime.knip.vtk.base/src/org/knime/knip/view3d/image/Viewer3DNodeAxes.java:296-321 | throws IllegalArgument iff there are fewer axes than the clamped count; otherwise displayed = the first count axes and hidden = the rest, both in list order |
| AxisSet.Axes.constructor | org.knime.knip.vtk.base/src/org/knime/knip/view3d/image/Viewer3DNodeAxes.java:306-320 | the split loop puts the first count axes in the displayed list and the rest in the hidden list, and the set invariant holds |
| AxisSet.PartitionMembership | org.knime.knip.vtk.base/src/org/knime/knip/view3d/image/Viewer3DNodeAxes.java:308-320 | over distinct axes the two lists are disjoint and together hold exactly the set's axes |
| AxisSet.Axes.DisplayedOrHidden | org.knime.knip.vtk.base/src/org/knime/knip/view3d/image/Viewer3DNodeAxes.java:454-474 | an axis of the set is displayed or hidden and never both; any other axis is neither |
| AxisSet.Axes.DisplayAxis | org.knime.knip.vtk.base/src/org/knime/knip/view3d/image/Viewer3DNodeAxes.java:336-363 | succeeds iff both are non-null, in the set, the hidden one displayed and the shown one hidden; NullPointer or IllegalArgument otherwise with both lists unchanged; on success each list loses one axis and gets the other appended |
| AxisSet.SwapKeepsPartition | org.knime.knip.vtk.base/src/org/knime/knip/view3d/image/Viewer3DNodeAxes.java:356-362 | the swap keeps both sizes and the partition of the set, and moves no other axis |
| AxisSet.SwapBack | org.knime.knip.vtk.base/src/org/knime/knip/view3d/image/Viewer3DNodeAxes.java:356-362 | swapping back restores which axes are displayed and which hidden |
| AxisSet.Axes.GetManipulatedVolume | org.knime.knip.vtk.base/src/org/knime/knip/view3d/image/Viewer3DNodeAxes.java:370-382 | the descriptor over the live lists reads its depths from an array with 0 in the first slots and hidden axis i's manipulated index in slot i + displayed size |
| AxisSet.ManipulatedDepthIsPositional | org.knime.knip.vtk.base/src/org/knime/knip/view3d/image/Viewer3DNodeAxes.java:370-380 | for every hidden axis i: an index below the number d of displayed axes records depth 0, and an axis at index d + i records its manipulated index |
| AxisSet.Combos | org.knime.knip.vtk.base/src/org/knime/knip/view3d/image/Viewer3DNodeAxes.java:426-446 | every enumerated combination has one entry per hidden axis, taken from that axis's selection |
| AxisSet.CombosCount | org.knime.knip.vtk.base/src/org/knime/knip/view3d/image/Viewer3DNodeAxes.java:409-446 | the enumeration has the product of the selection sizes as length, and exactly one element with no hidden axes |
| AxisSet.CombosLexIncreasing | org.knime.knip.vtk.base/src/org/knime/knip/view3d/image/Viewer3DNodeAxes.java:428-442 | with duplicate-free selections the enumeration is strictly lexicographically increasing, the last hidden axis fastest |
| AxisSet.EnumeratedDepths | org.knime.knip.vtk.base/src/org/knime/knip/view3d/image/Viewer3DNodeAxes.java:85-91 | with distinct slots an enumerated descriptor records its combination's value for each hidden axis and 0 for each displayed one |
| AxisSet.Axes.AppendNextDim | org.knime.knip.vtk.base/src/org/knime/knip/view3d/image/Viewer3DNodeAxes.java:426-446 | the recursion appends one fresh descriptor over the live lists per combination from hidden axis i on, in order, and touches only those axes' slots |
| AxisSet.Axes.GetDisplayedVolumes | org.knime.knip.vtk.base/src/org/knime/knip/view3d/image/Viewer3DNodeAxes.java:409-417 | one fresh descriptor per combination of the hidden selections, in enumeration order, each recording that combination |
| AxisSet.Axes.GetCacheStrings | org.knime.knip.vtk.base/src/org/knime/knip/view3d/image/Viewer3DNodeAxes.java:391-402 | product-many keys, the k-th being the displayed labels followed by the hidden labels with the k-th combination's depths |
| ImageToVtk.Spacing | org.knime.knip.vtk.base/src/org/knime/knip/view3d/image/Viewer3DNodeImageToVTK.java:196-204 | the calibrated scale when positive, else 1.0; always positive |
| ImageToVtk.DimensionMap | org.knime.knip.vtk.base/src/org/knime/knip/view3d/image/Viewer3DNodeImageToVTK.java:152-157 | every label of the image maps to the first dimension carrying it, and nothing else is mapped |
| ImageToVtk.DisplayedDims | org.knime.knip.vtk.base/src/org/knime/knip/view3d/image/Viewer3DNodeImageToVTK.java:240-242 | succeeds iff there are three displayed axes whose labels are mapped, and gives their dimensions as x, y, z |
| ImageToVtk.HiddenPosition | org.knime.knip.vtk.base/src/org/knime/knip/view3d/image/Viewer3DNodeImageToVTK.java:255-258 | succeeds iff every hidden axis has a mapped label and a recorded depth; NullPointer otherwise |
| ImageToVtk.HiddenPositionAt | org.knime.knip.vtk.base/src/org/knime/knip/view3d/image/Viewer3DNodeImageToVTK.java:255-258 | with distinct hidden dimensions each holds its axis's depth and every other coordinate keeps its value |
| ImageToVtk.ScanAt | org.knime.knip.vtk.base/src/org/knime/knip/view3d/image/Viewer3DNodeImageToVTK.java:288-302 | the sample at (x, y, z) lands at index x + dx*(y + dy*z), inside the array |
| ImageToVtk.ProgressPrefix | org.knime.knip.vtk.base/src/org/knime/knip/view3d/image/Viewer3DNodeImageToVTK.java:297-298 | with step above 100 the events published so far are the progress values 0, 1, ... in order, at most 100 of them |
| ImageToVtk.ProgressAboveHundred | org.knime.knip.vtk.base/src/org/knime/knip/view3d/image/Viewer3DNodeImageToVTK.java:267-298 | with N/100 above 100 exactly the values 0..99 are published, once each, in increasing order |
| ImageToVtk.NoProgressUpToHundred | org.knime.knip.vtk.base/src/org/knime/knip/view3d/image/Viewer3DNodeImageToVTK.java:297-298 | with 0 < step <= 100 nothing is published |
| ImageToVtk.Conversion | org.knime.knip.vtk.base/src/org/knime/knip/view3d/image/Viewer3DNodeImageToVTK.java:186-302 | a conversion fails as the dimension lookup does; on success the layout is the displayed dimensions, N = dx*dy*dz samples, step N/100, and 0 < N < 100 is excluded |
| ImageToVtk.Converter.New | org.knime.knip.vtk.base/src/org/knime/knip/view3d/image/Viewer3DNodeImageToVTK.java:118-159 | a null event service is IllegalArgument before fewer than three dimensions is NotEnoughDims; otherwise an empty cache with the given caching flag |
| ImageToVtk.Converter.constructor | org.knime.knip.vtk.base/src/org/knime/knip/view3d/image/Viewer3DNodeImageToVTK.java:133-157 | the maps start empty, the label map is built from the image, and the caching flag is set |
| ImageToVtk.Converter.GetVTKImageData | org.knime.knip.vtk.base/src/org/knime/knip/view3d/image/Viewer3DNodeImageToVTK.java:168-226 | null is NullPointer; a hit while caching returns the stored grid without building; otherwise a fresh grid as the conversion says, stored under the key iff caching |
| ImageToVtk.Converter.NewGrid | org.knime.knip.vtk.base/src/org/knime/knip/view3d/image/Viewer3DNodeImageToVTK.java:184-214 | the grid gets the displayed extents, origin 0, the spacings and buildArray's scalars, after its progress events |
| ImageToVtk.Converter.BuildArray | org.knime.knip.vtk.base/src/org/knime/knip/view3d/image/Viewer3DNodeImageToVTK.java:234-309 | the slow path yields exactly the conversion's scalars and progress events, or its error |
| ImageToVtk.Converter.HiddenBase | org.knime.knip.vtk.base/src/org/knime/knip/view3d/image/Viewer3DNodeImageToVTK.java:248-258 | the cursor position starts at zero with each hidden dimension set to its axis's depth |
| ImageToVtk.Converter.ScanVolume | org.knime.knip.vtk.base/src/org/knime/knip/view3d/image/Viewer3DNodeImageToVTK.java:288-302 | the z/y/x loops store the full scan from the hidden position and publish its progress events, or fail on a zero step |
| ImageToVtk.Converter.ScanPlane | org.knime.knip.vtk.base/src/org/knime/knip/view3d/image/Viewer3DNodeImageToVTK.java:290-301 | one plane of rows appended to the data, with its progress events |
| ImageToVtk.Converter.ScanRow | org.knime.knip.vtk.base/src/org/knime/knip/view3d/image/Viewer3DNodeImageToVTK.java:292-300 | one row of samples appended to the data, with its progress events |
| ImageToVtk.Converter.StoreSample | org.knime.knip.vtk.base/src/org/knime/knip/view3d/image/Viewer3DNodeImageToVTK.java:295-299 | one sample stored and counted, publishing count/step exactly when count % step == 100; a zero step throws first |
| ImageToVtk.Converter.SetCaching | org.knime.knip.vtk.base/src/org/knime/knip/view3d/image/Viewer3DNodeImageToVTK.java:325-327 | only the flag changes |
| ImageToVtk.Converter.EmptyCache | org.knime.knip.vtk.base/src/org/knime/knip/view3d/image/Viewer3DNodeImageToVTK.java:333-339 | every cached grid is deleted and the cache is left empty |
| LoadImageEvents.NewLoadImageEvent | org.knime.knip.vtk.base/src/org/knime/knip/view3d/image/LoadImageEvent.java:75-80 | IllegalArgument iff progress < 0 or > 100; otherwise the event carries exactly that progress |
| LoadImageEvents.GetProgress | org.knime.knip.vtk.base/src/org/knime/knip/view3d/image/LoadImageEvent.java:87-89 | the progress of any event lies in 0..100 |
| LoadImageEvents.GetExecutionOrder | org.knime.knip.vtk.base/src/org/knime/knip/view3d/image/LoadImageEvent.java:95-97 | always NORMAL |
| LoadImageEvents.IsRedundant | org.knime.knip.vtk.base/src/org/knime/knip/view3d/image/LoadImageEvent.java:103-105 | always false |
| ImageAdmin.RenderVolume.constructor | org.knime.knip.vtk.base/src/org/knime/knip/view3d/image/Viewer3DNodeVolume.java:211-302 | a new volume keeps grid and bundles, is not released, and ends with the SMART mapper |
| ImageAdmin.RenderVolume.New | org.knime.knip.vtk.base/src/org/knime/knip/view3d/image/Viewer3DNodeVolume.java:211-229 | succeeds iff the descriptor's deep copy does; the volume owns a fresh copy with the same key, the given bundles and SMART |
| ImageAdmin.RenderVolume.SetMapper | org.knime.knip.vtk.base/src/org/knime/knip/view3d/image/Viewer3DNodeVolume.java:398-421 | the mapper is stored; a different null one throws NullPointer after being stored; the same one changes nothing |
| ImageAdmin.RenderVolume.Release | org.knime.knip.vtk.base/src/org/knime/knip/view3d/image/Viewer3DNodeVolume.java:1043-1076 | the volume is released and its image grid deleted |
| ImageAdmin.IndexedPut | org.knime.knip.vtk.base/src/org/knime/knip/view3d/image/Viewer3DNodeImageAdmin.java:176-178 | putting a new key keeps the keys distinct, in insertion order, each volume under its own key |
| ImageAdmin.ArrangedInRange | org.knime.knip.vtk.base/src/org/knime/knip/view3d/image/Viewer3DNodeImageAdmin.java:132-135 | axes laid out per dimension have indices that are slots of a one-per-axis array |
| ImageAdmin.SetUpAxes | org.knime.knip.vtk.base/src/org/knime/knip/view3d/image/Viewer3DNodeImageAdmin.java:126-138 | one fresh axis per dimension in order with label, dimension index and extent; three displayed, the rest hidden |
| ImageAdmin.NewAxes | org.knime.knip.vtk.base/src/org/knime/knip/view3d/image/Viewer3DNodeImageAdmin.java:130-135 | the loop of setUpAxes: distinct fresh axes, one per dimension in order, with label, first dimension index of the label and extent |
| ImageAdmin.Admin.New | org.knime.knip.vtk.base/src/org/knime/knip/view3d/image/Viewer3DNodeImageAdmin.java:107-124 | a null event service is IllegalArgument, too few dimensions NotEnoughDims; otherwise caching on, SMART, an empty cache, a non-caching converter and the set-up axes |
| ImageAdmin.Admin.constructor | org.knime.knip.vtk.base/src/org/knime/knip/view3d/image/Viewer3DNodeImageAdmin.java:114-123 | empty cache, no current volume, caching on, SMART |
| ImageAdmin.Admin.Build | org.knime.knip.vtk.base/src/org/knime/knip/view3d/image/Viewer3DNodeImageAdmin.java:164-174 | the converted grid as the conversion says, wrapped in a fresh volume with the current volume's bundles or the defaults |
| ImageAdmin.Admin.Fresh | org.knime.knip.vtk.base/src/org/knime/knip/view3d/image/Viewer3DNodeImageAdmin.java:164-174 | succeeds iff the conversion does and the descriptor is consistent; fails with the conversion's error, or NullPointer from the deep copy; a success is a fresh volume for the descriptor's key with the inherited bundles and SMART |
| ImageAdmin.Admin.Store | org.knime.knip.vtk.base/src/org/knime/knip/view3d/image/Viewer3DNodeImageAdmin.java:176-178 | the volume goes in under its key, last in insertion order |
| ImageAdmin.Admin.Miss | org.knime.knip.vtk.base/src/org/knime/knip/view3d/image/Viewer3DNodeImageAdmin.java:163-179 | the converter is asked once for the key; fails exactly when Fresh does, with its error, and then stores nothing; a new volume is stored last under the key iff caching is on |
| ImageAdmin.Admin.Record | org.knime.knip.vtk.base/src/org/knime/knip/view3d/image/Viewer3DNodeImageAdmin.java:176-178 | the conversion is recorded; a built volume goes into the cache last under its key iff caching is on, and nothing else enters the cache |
| ImageAdmin.Admin.GetVolume | org.knime.knip.vtk.base/src/org/knime/knip/view3d/image/Viewer3DNodeImageAdmin.java:155-184 | null or deleted admin throws with nothing changed; a hit returns the cached volume without converting; a miss converts once, fails with the conversion's error or NullPointer leaving cache and current volume alone, and otherwise stores iff caching; the volume becomes current and gets the admin's mapper (NullPointer for a null mapper over a set one); every other volume keeps its mapper, bundles and release flag |
| ImageAdmin.Admin.Revisit | org.knime.knip.vtk.base/src/org/knime/knip/view3d/image/Viewer3DNodeImageAdmin.java:161-162 | a hit: the cached volume becomes current with the admin's mapper; cache, order and conversions unchanged; every other volume untouched |
| ImageAdmin.Admin.Renew | org.knime.knip.vtk.base/src/org/knime/knip/view3d/image/Viewer3DNodeImageAdmin.java:163-179 | a miss: as Miss, then the built volume becomes current with the admin's mapper; a failed build leaves the current volume; every other volume untouched |
| ImageAdmin.Admin.Settle | org.knime.knip.vtk.base/src/org/knime/knip/view3d/image/Viewer3DNodeImageAdmin.java:181-183 | the volume becomes current and takes the admin's mapper; NullPointer exactly when a null mapper replaces a set one; the cache is unchanged |
| ImageAdmin.Admin.Request | org.knime.knip.vtk.base/src/org/knime/knip/view3d/image/Viewer3DNodeImageAdmin.java:194 | getVolume seen from getVolumes: the result is current and has the descriptor's key |
| ImageAdmin.Admin.RequestAll | org.knime.knip.vtk.base/src/org/knime/knip/view3d/image/Viewer3DNodeImageAdmin.java:192-197 | one volume per descriptor, in order, each with its descriptor's key, and the last one is current |
| ImageAdmin.Admin.GetVolumes | org.knime.knip.vtk.base/src/org/knime/knip/view3d/image/Viewer3DNodeImageAdmin.java:191-198 | one volume per enumerated combination, in enumeration order, each keyed by its combination, the last one current; NullPointer after delete |
| ImageAdmin.Admin.RequestTwice | org.knime.knip.vtk.base/src/org/knime/knip/view3d/image/Viewer3DNodeImageAdmin.java:159-179 | with caching on, a second request for a key returns the same volume and converts nothing more |
| ImageAdmin.Admin.SetMapper | org.knime.knip.vtk.base/src/org/knime/knip/view3d/image/Viewer3DNodeImageAdmin.java:205-207 | only the mapper changes, null accepted |
| ImageAdmin.Admin.SetCaching | org.knime.knip.vtk.base/src/org/knime/knip/view3d/image/Viewer3DNodeImageAdmin.java:214-216 | only the flag changes; cached volumes stay |
| ImageAdmin.Admin.ReleaseAll | org.knime.knip.vtk.base/src/org/knime/knip/view3d/image/Viewer3DNodeImageAdmin.java:235-238 | every cached volume is released with its grid |
| ImageAdmin.Admin.Delete | org.knime.knip.vtk.base/src/org/knime/knip/view3d/image/Viewer3DNodeImageAdmin.java:234-248 | every cached volume released, the cache cleared, converter, current, mapper and axes dropped |
| CubeSelector.DisplayedInOrder | org.knime.knip.vtk.base/src/org/knime/knip/view3d/usercontrols/AbstractCubeSelector.java:174-182 | the queue holds only displayed axes of the set and every displayed one, in set order |
| CubeSelector.QueueOfDisplayed | org.knime.knip.vtk.base/src/org/knime/knip/view3d/usercontrols/AbstractCubeSelector.java:174-191 | over distinct axes the queue holds exactly the displayed axes, each once |
| CubeSelector.WrapAxes | org.knime.knip.vtk.base/src/org/knime/knip/view3d/usercontrols/AbstractCubeSelector.java:174-191 | one box per axis, selected and disabled iff displayed, and the displayed ones queued in set order |
| CubeSelector.WrappedBookkept | org.knime.knip.vtk.base/src/org/knime/knip/view3d/usercontrols/AbstractCubeSelector.java:179-186 | a box is selected and disabled exactly when its axis is queued |
| CubeSelector.Unqueued | org.knime.knip.vtk.base/src/org/knime/knip/view3d/usercontrols/AbstractCubeSelector.java:249-256 | the axes with a box and not queued, each once, as many as boxes minus queued |
| CubeSelector.SwapFollowsQueue | org.knime.knip.vtk.base/src/org/knime/knip/view3d/usercontrols/AbstractCubeSelector.java:109-111 | the queue after a click holds the displayed axes after the swap |
| CubeSelector.Selector.constructor | org.knime.knip.vtk.base/src/org/knime/knip/view3d/usercontrols/AbstractCubeSelector.java:147-155 | no axes, no boxes, empty queue, not updating, enabled; its own service when given none |
| CubeSelector.Selector.SetAxes | org.knime.knip.vtk.base/src/org/knime/knip/view3d/usercontrols/AbstractCubeSelector.java:162-198 | null is NullPointer with nothing changed; otherwise new boxes per axis, the displayed axes queued in set order, one selection event, and the queue in step with the set |
| CubeSelector.Selector.CheckIfActive | org.knime.knip.vtk.base/src/org/knime/knip/view3d/usercontrols/AbstractCubeSelector.java:218-226 | true iff the axis is queued |
| CubeSelector.Selector.GetActive | org.knime.knip.vtk.base/src/org/knime/knip/view3d/usercontrols/AbstractCubeSelector.java:233-241 | the queued axes, oldest first |
| CubeSelector.Selector.GetInactive | org.knime.knip.vtk.base/src/org/knime/knip/view3d/usercontrols/AbstractCubeSelector.java:248-259 | exactly the non-queued axes with a box, each once, total minus active many |
| CubeSelector.Selector.SetUpdating | org.knime.knip.vtk.base/src/org/knime/knip/view3d/usercontrols/AbstractCubeSelector.java:336-338 | only the updating flag changes |
| CubeSelector.Selector.SetEnabled | org.knime.knip.vtk.base/src/org/knime/knip/view3d/usercontrols/AbstractCubeSelector.java:396-406 | the flag, and the enabled state of every non-queued box; queued boxes unchanged |
| CubeSelector.Selector.Deactivate | org.knime.knip.vtk.base/src/org/knime/knip/view3d/usercontrols/AbstractCubeSelector.java:273-297 | no box: IllegalArgument (null: NullPointer); queued: null result, no change; otherwise the head leaves with its box re-enabled, the axis joins at the tail greyed out, and the head is returned |
| CubeSelector.Selector.SwapDisplayed | org.knime.knip.vtk.base/src/org/knime/knip/view3d/usercontrols/AbstractCubeSelector.java:111-113 | the set displays the clicked axis instead of the retired one, then the two events are published |
| CubeSelector.Selector.Click | org.knime.knip.vtk.base/src/org/knime/knip/view3d/usercontrols/AbstractCubeSelector.java:106-115 | ignored while updating; otherwise deactivate then displayAxis: the head leaves the queue with its box re-enabled, the axis joins at the tail greyed out, the set swaps the two, two events are published, so the queue still holds exactly the displayed axes; a queued axis ends in NullPointer with nothing changed |
| Screenshot.ResolutionString | org.knime.knip.vtk.base/src/org/knime/knip/view3d/usercontrols/Viewer3DNodeScreenshot.java:401-412 | exactly MAG_LEVEL = 5 entries, entry k being "(k+1) - w(k+1)xh(k+1)" |
| Screenshot.EntryLevel | org.knime.knip.vtk.base/src/org/knime/knip/view3d/usercontrols/Viewer3DNodeScreenshot.java:408 | each entry starts with the single digit of its level |
| Screenshot.ResolutionEntriesDistinct | org.knime.knip.vtk.base/src/org/knime/knip/view3d/usercontrols/Viewer3DNodeScreenshot.java:404-409 | the entries are pairwise different |
| Screenshot.Magnification | org.knime.knip.vtk.base/src/org/knime/knip/view3d/usercontrols/Viewer3DNodeScreenshot.java:263 | a valid list index gives a magnification in 1..5; no selection (-1) gives 0 |
| Screenshot.SelectedEntryNamesMagnification | org.knime.knip.vtk.base/src/org/knime/knip/view3d/usercontrols/Viewer3DNodeScreenshot.java:255-263 | selecting an entry gives the magnification that entry names |
| Screenshot.Screenshooter.constructor | org.knime.knip.vtk.base/src/org/knime/knip/view3d/usercontrols/Viewer3DNodeScreenshot.java:119-125 | no window, magnification 1, counter 0, PNG, no shots |
| Screenshot.Screenshooter.SetWindow | org.knime.knip.vtk.base/src/org/knime/knip/view3d/usercontrols/Viewer3DNodeScreenshot.java:419-421 | a null window is ignored; otherwise it becomes the window |
| Screenshot.Screenshooter.SelectMagnification | org.knime.knip.vtk.base/src/org/knime/knip/view3d/usercontrols/Viewer3DNodeScreenshot.java:261-265 | a settled selection sets the magnification to index + 1 |
| Screenshot.Screenshooter.SelectFormat | org.knime.knip.vtk.base/src/org/knime/knip/view3d/usercontrols/Viewer3DNodeScreenshot.java:238-252 | a settled selection 0, 1, 2 gives PNG, JPEG, BMP; any other keeps the format |
| Screenshot.Screenshooter.TakeShot | org.knime.knip.vtk.base/src/org/knime/knip/view3d/usercontrols/Viewer3DNodeScreenshot.java:434-465 | no window: nothing written, counter unchanged; otherwise one file with the counter's number, the counter up by one, one event |

## Left out

- The fast path of `buildArray` (the flat-iteration cursor over an `ImgView`) is not modelled. It matches the slow-path layout only when the x, y and z dimensions are in increasing order. The imglib2 `Convert` SCALE conversion to `short` is not modelled either: samples are an abstract function already in the short range.
- Spacing: `averageScale` doubles are a `Scale` value, a real calibration or NaN. Floating-point rounding and infinities are not modelled.
- 32-bit overflow is not modelled. This covers `w * i` in `resolutionString`, the `step` arithmetic and the `(int)` casts of `long` extents. Integers are unbounded.
- `ImageToVtk.Image.WellFormed`: the image is assumed to have one label, extent and scale per dimension, as an `ImgPlus` always does.
- `AxisState.Axis.SetDisplayed`: the axis does not keep the caller's array object, only its sorted contents. Later writes through that shared array, or through the array `getDisplayed` returns, are not modelled.
- The exception from `depths[a.index]` when an axis index is not a slot of the array is not modelled as a failure. The operations that read slots (`getManipulatedVolume`, `getDisplayedVolumes`, `getCacheStrings`) require `IndicesInRange`, which `setUpAxes` establishes.
- `getDepthsLong` is not modelled: it only widens `getDepths`.
- The trivial getters are not modelled: `getAxes`, `getCurrent` and `isCaching`, the `Axis` and `Volume` list getters, `getNoDisplayed`, `getNoAxes`, the iterator and `getMinDims`. The two axis comparators (`compareTo` on labels, `OrderByIndex`) and the deprecated `newOrderedAxes` are not modelled either.
- The rendering pipeline of `Viewer3DNodeVolume` is not modelled: reslicers, lookup tables, transfer-function sampling, histograms and clipping planes. A volume is reduced to its grid, its descriptor copy, its bundles, its mapper and whether it was released. `TransferFunctionBundle` is a value, so its copy constructor is the identity.
- `HashMap` iteration order is left unspecified where the source iterates a map. This affects `getInactive` and `setEnabled`. `LinkedHashMap` order is kept as an explicit insertion-order sequence.
- Swing widget state is reduced to a box's enabled and selected flags. Layout, the `enableCallback` hook and `clearElements`' `removeAll` are not modelled.
- Event-bus subscription is not modelled. The event service is the sequence of events published.
- `takeShot` file I/O is not modelled: file names, dates, directories, writers and logging. A shot is recorded as its number, format and magnification. The directory and file-name listeners are not modelled either.
- `ImageAdmin.Admin.Valid` does not include the axis set's own invariant `Axes.Valid`. `GetVolumes` requires it separately, and the cube selector keeps it.
- `ImageAdmin.Admin.GetVolume` and `ImageAdmin.Admin.Miss` do not restate the converted grid's contents. `ImageAdmin.Admin.Build` and `ImageToVtk.Converter.GetVTKImageData` state them.
- `ImageAdmin.Admin.RequestAll` and `ImageAdmin.Admin.GetVolumes` state the count, the order, the keys and the current volume. They do not state that earlier volumes keep the admin's mapper, or which volumes the converter was asked for.
- `ImageAdmin.Admin.RequestTwice` states that the second result equals the first. It does not name which of the two possible conversions happened.
- `CubeSelector.Selector.Click` requires `Synced`, a queue holding exactly the displayed axes. The slice control hands one axis set to three selectors (Viewer3DNodeSliceControl.java:179-181), and a click on one leaves the others to be resynchronised through `Viewer3DNodeCubeSelector.update` (Viewer3DNodeCubeSelector.java:185-210), which is not modelled.
- `CubeSelector.Selector.Click` requires an axis set. Before `setAxes` no checkbox exists, so no click can happen.
- `CubeSelector.Selector.Deactivate`: a null axis would fail inside the error message of the missing-box check. The model reports this as `NullPointer`.
