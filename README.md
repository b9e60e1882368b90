# dashi core, modelled in Dafny

dashi is an Android dashcam app. It reads camera frames, recognises licence plates and lanes on
them through a native engine, and checks recognised plates against a watchlist. This project
models the sequential logic inside it and proves properties of that logic:

- **CyclicBuffers** (`cyclic_buffer.dfy`): the fixed-capacity ring buffer. The class keeps its
  `array` of nullable slots (`None` is Java's null), the `size` and `last` fields, a ghost record
  of every item added, and a ghost count of the slots written since construction. `Add`, `AsList`
  and `Reset` are proved against the window of the last `capacity` items, listed newest first.
  The unit test's expectations are proved as scenarios.
- **FramePipeline** (`frame_pipeline.dfy`): what the two recognition handlers share. This covers
  the ordered admission decision of `recognize`, runs of frames through the bounded queue (FIFO,
  lossless, gate spacing), the worker phases, the no-lost-image invariant, and the check of the
  configuration directory.
- **ImageHandlers** and **AlprHandlers** (`image_handler.dfy`, `alpr_handler.dfy`): the two
  handler classes. Each is a sequential interleaving of the public operations (`Recognize`,
  `Start`, `Stop`, `SetBitmapSize`) and the steps of each worker's poll loop (`PollStep`,
  `AcquireStep`, `FinishStep`). Each class keeps two invariants:
  - available permits plus busy workers equals THREADS;
  - every image handed in is still queued, held by a worker, or closed.
  Closing is recorded as a sequence of calls, so the second close the workers make on some
  paths is visible.
- **CameraUtils** (`camera_utils.dfy`): the JPEG orientation table and formula with Java's
  32-bit `+` and `%`, dimension swapping, the broken-resolution filter, the area comparator,
  `chooseOptimalSize` against a reference "first extreme" definition, and the swap-and-clamp of
  the preview bound.
- **ImageUtil** (`image_util.dfy`): a `java.nio.ByteBuffer` model. On top of it, the NV21
  layout (Y, then V, then U) and the format dispatch of `imageToJpeg`.
- **LicensePlates**, **LicensePlateMatchers**, **Openalpr** (`license_plate.dfy`,
  `license_plate_matcher.dfy`, `openalpr.dfy`): the watchlist entry and its case-insensitive
  match, the matcher that looks only at the first result's best plate, and the engine's result
  records.
- **CameraConfigs** (`camera_config.dfy`): the builder, whose request and surface lists stay in
  step; requests whose keys behave as a map; and `getRequests`.
- **Preconditions** (`preconditions.dfy`): the argument validators.
- **ViewGeometry**, **AppPolygonView**, **LaneViews**, **ViewPolygonView**: the integer
  aspect-fit of `onMeasure`, the landscape swap, the idempotent `clear`, and the segments
  `onDraw` strokes.
- **Wrappers** and **JavaInt**: `Option` for Java's null, `Result` for thrown exceptions, and
  32-bit wrap-around with Java's truncating `/` and `%`.

Java `null` is `None`. A thrown exception is a `Throws` result carrying its message.
`System.currentTimeMillis()` is a `now` parameter. Calls into code outside the model are
parameters whose outcome is either a value or an exception: native recognition, lane
detection, reading the Y plane, and the NV21-to-JPEG codec.

## Model

| member | source | states |
|---|---|---|
| Preconditions.AssertParameterNotNull | utils/src/main/java/com/andrasta/dashi/utils/Preconditions.java:20-26 | succeeds exactly for a non-null parameter and returns it unchanged; null throws IllegalArgumentException with the "Parameter … cannot be null!" message |
| Preconditions.AssertCollectionNotEmpty | utils/src/main/java/com/andrasta/dashi/utils/Preconditions.java:29-36 | succeeds exactly for a non-null, non-empty collection and returns it unchanged; otherwise IllegalArgumentException with the "cannot be empty!" message |
| Preconditions.AssertStringNotEmpty | utils/src/main/java/com/andrasta/dashi/utils/Preconditions.java:38-44 | succeeds exactly for a non-null, non-empty string (TextUtils.isEmpty is false) and returns it; otherwise IllegalArgumentException with the "cannot be empty!" message |
| Preconditions.AssertReturnNotNull | utils/src/main/java/com/andrasta/dashi/utils/Preconditions.java:46-53 | succeeds exactly for a non-null value and returns it; null throws IllegalArgumentException with the "Return value … cannot be null!" message |
| Preconditions.ReturnCheckAgreesWithParameterCheck | utils/src/main/java/com/andrasta/dashi/utils/Preconditions.java:20-53 | the return check and the parameter check accept the same values and return the same value; their failure messages differ |
| LicensePlates.NewLicensePlate | dashi-client/src/main/java/com/andrasta/dashiclient/LicensePlate.java:16-24 | construction succeeds exactly when uuid and number are non-null; otherwise it throws IllegalArgumentException |
| LicensePlates.GettersReturnConstructorArguments | dashi-client/src/main/java/com/andrasta/dashiclient/LicensePlate.java:16-40 | with uuid and number given, every getter returns what the constructor was given, nulls included for description and priority |
| LicensePlates.ToUpper | dashi-client/src/main/java/com/andrasta/dashiclient/LicensePlate.java:42-44 | the upper-case form keeps the length and maps each character through the letter case mapping |
| LicensePlates.ToLower | dashi-client/src/main/java/com/andrasta/dashiclient/LicensePlate.java:42-44 | the lower-case form keeps the length and maps each character through the letter case mapping |
| LicensePlates.EqualsIgnoreCase | dashi-client/src/main/java/com/andrasta/dashiclient/LicensePlate.java:42-44 | String.equalsIgnoreCase: never equal to null, equal only at the same length, and every string equals itself |
| LicensePlates.Matches | dashi-client/src/main/java/com/andrasta/dashiclient/LicensePlate.java:42-44 | a plate number matches an entry exactly when it is not null and has the entry's upper-case spelling |
| LicensePlates.CharEqualsIgnoreCaseIsUpperEquality | dashi-client/src/main/java/com/andrasta/dashiclient/LicensePlate.java:42-44 | the three-step character comparison of equalsIgnoreCase holds exactly when the upper-case forms are equal |
| LicensePlates.MatchesIffSameUpperCase | dashi-client/src/main/java/com/andrasta/dashiclient/LicensePlate.java:42-44 | a non-null plate number matches an entry exactly when the two upper-case spellings are equal (both directions) |
| LicensePlates.NullNeverMatches | dashi-client/src/main/java/com/andrasta/dashiclient/LicensePlate.java:42-44 | a null plate number never matches |
| LicensePlates.UpperOfLower | dashi-client/src/main/java/com/andrasta/dashiclient/LicensePlate.java:42-44 | upper-casing a lower-cased character gives the upper case of the original |
| LicensePlates.MatchesCaseVariants | dashi-client/src/main/java/com/andrasta/dashiclient/LicensePlate.java:42-44 | an entry matches its own number, its all-upper and all-lower spellings, and every string with the same upper-case form |
| LicensePlates.MatchesSymmetric | dashi-client/src/main/java/com/andrasta/dashiclient/LicensePlate.java:42-44 | if entry a matches entry b's number, then b matches a's number |
| Openalpr.NewAlprResult | openalpr/src/main/java/com/andrasta/dashi/openalpr/AlprResult.java:22-32 | a null plate array becomes the empty list; otherwise the plates are kept in order; the timing and source size are stored as given |
| Openalpr.NewPlateResult | openalpr/src/main/java/com/andrasta/dashi/openalpr/PlateResult.java:25-37 | a null candidate array becomes the empty list; the best plate, coordinates, processing time and index are stored as given |
| LicensePlateMatchers.FirstMatching | dashi-app/src/main/java/com/andrasta/dashi/service/LicensePlateMatcher.java:54-61 | the index found is the first watchlist entry matching the number: the entry there matches and no earlier entry does; it is the list length when none matches |
| LicensePlateMatchers.MatchOf | dashi-app/src/main/java/com/andrasta/dashi/service/LicensePlateMatcher.java:54-62 | a pair comes back exactly when the confidence is above 80 and some watchlist entry matches the plate; it holds the plate and the first matching entry |
| LicensePlateMatchers.MatchesOf | dashi-app/src/main/java/com/andrasta/dashi/service/LicensePlateMatcher.java:64-81 | at most one pair, each pairing a plate read above 80 with a watchlist entry that matches it; none for a result with no plates |
| LicensePlateMatchers.LowConfidenceNeverMatches | dashi-app/src/main/java/com/andrasta/dashi/service/LicensePlateMatcher.java:54-61 | a plate read with confidence of at most 80 matches nothing, whatever the watchlist |
| LicensePlateMatchers.MatchesOfIsFirstBestPlate | dashi-app/src/main/java/com/andrasta/dashi/service/LicensePlateMatcher.java:64-81 | at most one pair comes back; it pairs the best plate of the first result with a watchlist entry that matches it, at confidence above 80 |
| LicensePlateMatchers.LicensePlateMatcher.constructor | dashi-app/src/main/java/com/andrasta/dashi/service/LicensePlateMatcher.java:30 | the watchlist starts empty |
| LicensePlateMatchers.LicensePlateMatcher.OnResponse | dashi-app/src/main/java/com/andrasta/dashi/service/LicensePlateMatcher.java:39-45 | a non-null response body replaces the watchlist; a null body leaves it as it was |
| LicensePlateMatchers.LicensePlateMatcher.FindMatch | dashi-app/src/main/java/com/andrasta/dashi/service/LicensePlateMatcher.java:54-62 | returns the plate paired with the first entry in list order that matches it at confidence above 80; returns null exactly when the confidence is too low or no entry matches |
| LicensePlateMatchers.LicensePlateMatcher.FindMatches | dashi-app/src/main/java/com/andrasta/dashi/service/LicensePlateMatcher.java:64-81 | a null result throws IllegalArgumentException; otherwise the list holds at most the match of the first result's non-null best plate |
| LicensePlateMatchers.EmptyWatchlistMatchesNothing | dashi-app/src/main/java/com/andrasta/dashi/service/LicensePlateMatcher.java:30-81 | with the initial empty watchlist no result yields a match |
| CyclicBuffers.Window | utils/src/main/java/com/andrasta/dashi/utils/CyclicBuffer.java:17-24 | the buffer keeps min(number added, capacity) items, the newest ones |
| CyclicBuffers.NewestFirst | utils/src/main/java/com/andrasta/dashi/utils/CyclicBuffer.java:28-40 | the newest-first order of asList lists every item once: the listing is as long as what it lists |
| CyclicBuffers.NewestFirstAt | utils/src/main/java/com/andrasta/dashi/utils/CyclicBuffer.java:33-38 | position k of the listing holds the k-th newest item |
| CyclicBuffers.WindowGrows | utils/src/main/java/com/andrasta/dashi/utils/CyclicBuffer.java:21-23 | an add to a buffer that is not full keeps every item and appends the new one |
| CyclicBuffers.WindowEvictsOldest | utils/src/main/java/com/andrasta/dashi/utils/CyclicBuffer.java:18-20 | an add to a full buffer drops exactly the oldest item and keeps the rest in order |
| CyclicBuffers.ListingAfterAdd | utils/src/main/java/com/andrasta/dashi/utils/CyclicBuffer.java:17-40 | after an add the listing is the new item followed by the previous listing, cut to the capacity |
| CyclicBuffers.ListingDropsOldest | utils/src/main/java/com/andrasta/dashi/utils/CyclicBuffer.java:17-40 | listing a full window with its oldest item replaced by a new one gives the new item, then the old listing without its last entry |
| CyclicBuffers.StoredAfterGrow | utils/src/main/java/com/andrasta/dashi/utils/CyclicBuffer.java:18-23 | writing into slot `last` of a buffer with room keeps every stored item in its slot and stores the new one |
| CyclicBuffers.StoredAfterEvict | utils/src/main/java/com/andrasta/dashi/utils/CyclicBuffer.java:18-20 | overwriting slot `last` of a full buffer keeps all items but the oldest in their slots and stores the new one |
| CyclicBuffers.KeepsAfterAdd | utils/src/main/java/com/andrasta/dashi/utils/CyclicBuffer.java:17-25 | one add keeps array, size and last in step with the items added, and a full buffer gives back its oldest item |
| CyclicBuffers.KeepsAfterGrow | utils/src/main/java/com/andrasta/dashi/utils/CyclicBuffer.java:17-25 | the add invariant when the buffer still has room: size and last both advance by one |
| CyclicBuffers.KeepsAfterEvict | utils/src/main/java/com/andrasta/dashi/utils/CyclicBuffer.java:17-25 | the add invariant on a full buffer; the slot overwritten held the oldest item |
| CyclicBuffers.CyclicBuffer.constructor | utils/src/main/java/com/andrasta/dashi/utils/CyclicBuffer.java:12-14 | a new buffer has the given capacity, holds no items, has size and last 0, and every slot holds null |
| CyclicBuffers.CyclicBuffer.Add | utils/src/main/java/com/andrasta/dashi/utils/CyclicBuffer.java:17-25 | stores the item in slot `last`, advances `last` modulo the capacity, grows the size up to the capacity, and returns the slot's previous content, which is the evicted oldest item once the buffer is full and null for a slot not written since construction; the buffer invariant is kept |
| CyclicBuffers.CyclicBuffer.AsList | utils/src/main/java/com/andrasta/dashi/utils/CyclicBuffer.java:27-40 | returns the kept items newest first |
| CyclicBuffers.ListSlots | utils/src/main/java/com/andrasta/dashi/utils/CyclicBuffer.java:28-39 | the backward walk from slot last-1, wrapping to size-1, collects exactly the stored items newest first |
| CyclicBuffers.CyclicBuffer.Reset | utils/src/main/java/com/andrasta/dashi/utils/CyclicBuffer.java:42-45 | the buffer is logically empty again, and the array keeps its old contents, so the written slots stay written |
| CyclicBuffers.UnwrittenAfterWrite | utils/src/main/java/com/andrasta/dashi/utils/CyclicBuffer.java:13-19 | writing slot `last`, which is never past the written slots, extends them by at most that slot, and a slot just past them held null |
| CyclicBuffers.StateAfterAdd | utils/src/main/java/com/andrasta/dashi/utils/CyclicBuffer.java:12-25 | one add keeps the items, size, last and the null unwritten slots in step, returning the oldest item when full and null from an unwritten slot |
| CyclicBuffers.ThreeSlotListings | utils/src/test/java/com/andrasta/dashi/utils/CyclicBufferTest.java:11-45 | the listings the test expects after each of its five adds to a capacity-3 buffer |
| CyclicBuffers.PartlyFilledScenario | utils/src/test/java/com/andrasta/dashi/utils/CyclicBufferTest.java:11-24 | the first steps of the test: an empty listing, then ["a"], then ["b", "a"]; both adds return null |
| CyclicBuffers.FillScenario | utils/src/test/java/com/andrasta/dashi/utils/CyclicBufferTest.java:11-31 | filling the capacity-3 buffer lists ["c", "b", "a"], wraps `last` back to 0, and each of the three adds returns null |
| CyclicBuffers.OverflowScenario | utils/src/test/java/com/andrasta/dashi/utils/CyclicBufferTest.java:33-45 | adding "d" and "e" to the full buffer evicts "a" and then "b", and lists ["d", "c", "b"] and then ["e", "d", "c"] |
| CyclicBuffers.CyclicBufferResetScenario | utils/src/test/java/com/andrasta/dashi/utils/CyclicBufferTest.java:47-60 | after reset the listings are [], ["a"] and ["b", "a"], as the test expects, and the first add gives back the stale "d" left in slot 0 |
| CameraConfigs.Request.constructor | camera/src/main/java/com/andrasta/dashi/camera/CameraConfig.java:132-136 | a non-null surface gives a request holding the template and surface and no keys |
| CameraConfigs.NewRequest | camera/src/main/java/com/andrasta/dashi/camera/CameraConfig.java:132-136 | the Request constructor succeeds exactly for a non-null surface; null throws IllegalArgumentException with the return-value message for "surface" |
| CameraConfigs.Request.Set | camera/src/main/java/com/andrasta/dashi/camera/CameraConfig.java:138-143 | a null key, then a null value, throws and leaves the keys unchanged; otherwise the value is put under the key, replacing an earlier one, and the request itself is returned |
| CameraConfigs.LaterSetWins | camera/src/main/java/com/andrasta/dashi/camera/CameraConfig.java:138-143 | two set calls of one key on any request leave the second value under it, and every other key keeps its value |
| CameraConfigs.RequestKeysScenario | camera/src/main/java/com/andrasta/dashi/camera/CameraConfig.java:138-143 | setting a key twice, with a rejected null value in between, leaves exactly the second value under it |
| CameraConfigs.CameraConfig.constructor | camera/src/main/java/com/andrasta/dashi/camera/CameraConfig.java:23-28 | the configuration holds exactly the id, thread choice, surfaces and requests it is given |
| CameraConfigs.CameraConfig.GetRequests | camera/src/main/java/com/andrasta/dashi/camera/CameraConfig.java:45-57 | no requests throws RuntimeException "No requests"; otherwise one capture request per request, in the same order, each built from the request's template, surface and keys |
| CameraConfigs.Builder.constructor | camera/src/main/java/com/andrasta/dashi/camera/CameraConfig.java:68-71 | a builder for a non-empty id starts with no size, format 0, orientation 0, not on the UI thread and with empty lists |
| CameraConfigs.NewBuilder | camera/src/main/java/com/andrasta/dashi/camera/CameraConfig.java:68-71 | the Builder constructor succeeds exactly for a non-null, non-empty camera id; otherwise it throws IllegalArgumentException with the "cannot be empty!" message |
| CameraConfigs.Builder.SetCameraOrientation | camera/src/main/java/com/andrasta/dashi/camera/CameraConfig.java:81-84 | sets the orientation, changes nothing else, and returns the builder |
| CameraConfigs.Builder.SetUseUiThread | camera/src/main/java/com/andrasta/dashi/camera/CameraConfig.java:90-93 | sets the thread choice, changes nothing else, and returns the builder |
| CameraConfigs.Builder.SetSize | camera/src/main/java/com/andrasta/dashi/camera/CameraConfig.java:99-102 | sets the size, null included, changes nothing else, and returns the builder |
| CameraConfigs.Builder.SetResolution | camera/src/main/java/com/andrasta/dashi/camera/CameraConfig.java:104-108 | a null size throws IllegalArgumentException and changes nothing; otherwise it sets the size and returns the builder |
| CameraConfigs.Builder.SetImageFormat | camera/src/main/java/com/andrasta/dashi/camera/CameraConfig.java:110-113 | sets the image format, changes nothing else, and returns the builder |
| CameraConfigs.Builder.AddRequest | camera/src/main/java/com/andrasta/dashi/camera/CameraConfig.java:115-120 | a null request throws IllegalArgumentException and changes nothing; otherwise the request and its surface are appended, so the two lists stay in step |
| CameraConfigs.Builder.Build | camera/src/main/java/com/andrasta/dashi/camera/CameraConfig.java:122-124 | the configuration gets the builder's id, thread choice, requests and surfaces, with the surfaces in step with the requests |
| CameraConfigs.TwoRequestScenario | camera/src/main/java/com/andrasta/dashi/camera/CameraConfig.java:45-124 | a configuration built with no requests throws on getRequests; one built with two requests lists their capture requests in insertion order |
| CameraUtils.OrientationOf | camera/src/main/java/com/andrasta/dashi/camera/CameraUtils.java:47-54 | the rotation table gives a multiple of 90 in [0, 360), with 0 for a rotation that is not in the table |
| CameraUtils.GetOrientation | camera/src/main/java/com/andrasta/dashi/camera/CameraUtils.java:70-76 | the JPEG orientation, with Java's wrapping int addition and remainder, is strictly between -360 and 360 for every rotation and sensor orientation |
| CameraUtils.GetOrientationRange | camera/src/main/java/com/andrasta/dashi/camera/CameraUtils.java:70-76 | for a sensor orientation that cannot overflow, the JPEG orientation is the table value plus orientation plus 270, modulo 360, so it lies in [0, 360) |
| CameraUtils.GetOrientationForCommonSensors | camera/src/main/java/com/andrasta/dashi/camera/CameraUtils.java:70-76 | a sensor at 90 degrees keeps the table value; one at 270 degrees turns it by a further 180 degrees |
| CameraUtils.GetOrientationNegativeSensor | camera/src/main/java/com/andrasta/dashi/camera/CameraUtils.java:70-76 | a negative sensor orientation can make the result negative, because Java's remainder keeps the sign of the dividend |
| CameraUtils.IsSwappedDimensions | camera/src/main/java/com/andrasta/dashi/camera/CameraUtils.java:138-156 | only a valid display rotation with a right-angle sensor orientation in [0, 360) can swap the dimensions |
| CameraUtils.SwappedIffQuarterTurnApart | camera/src/main/java/com/andrasta/dashi/camera/CameraUtils.java:138-156 | the dimensions are swapped exactly when display rotation and sensor orientation (a multiple of 90) are a quarter turn apart; an invalid rotation never swaps |
| CameraUtils.SkipThisChoice | camera/src/main/java/com/andrasta/dashi/camera/CameraUtils.java:134-136 | every skipped resolution is a 4:3 landscape size |
| CameraUtils.SkipsExactlyBrokenSizes | camera/src/main/java/com/andrasta/dashi/camera/CameraUtils.java:56-62 | an option is skipped exactly when it is 1440x1080, 4048x3036 or 4000x3000 |
| CameraUtils.AreaDifferenceFitsInLong | camera/src/main/java/com/andrasta/dashi/camera/CameraUtils.java:256-263 | the difference of two int areas taken as longs never overflows a long |
| CameraUtils.CompareBySize | camera/src/main/java/com/andrasta/dashi/camera/CameraUtils.java:256-263 | the comparator is negative, zero or positive exactly as the first area is smaller than, equal to or larger than the second |
| CameraUtils.ComparatorLaws | camera/src/main/java/com/andrasta/dashi/camera/CameraUtils.java:256-263 | the comparator is antisymmetric in sign, transitive, and consistent on ties |
| CameraUtils.MinIndex | camera/src/main/java/com/andrasta/dashi/camera/CameraUtils.java:121 | Collections.min returns an element of least area, and no earlier element has that area |
| CameraUtils.MaxIndex | camera/src/main/java/com/andrasta/dashi/camera/CameraUtils.java:123 | Collections.max returns an element of greatest area, and no earlier element has that area |
| CameraUtils.FirstExtremeIsFirstOfExtremeArea | camera/src/main/java/com/andrasta/dashi/camera/CameraUtils.java:103-127 | the reference choice is absent exactly when no option is kept; otherwise it is a kept option of least (or greatest) area with no earlier kept option of the same area |
| CameraUtils.MinIndexAppend | camera/src/main/java/com/andrasta/dashi/camera/CameraUtils.java:121 | Collections.min of a list with one element appended moves to that element only when it is strictly smaller |
| CameraUtils.MinOfCollected | camera/src/main/java/com/andrasta/dashi/camera/CameraUtils.java:103-121 | the minimum of the list the loop collects is the option the reference choice names, and the list is empty exactly when the reference finds nothing |
| CameraUtils.MaxIndexAppend | camera/src/main/java/com/andrasta/dashi/camera/CameraUtils.java:123 | Collections.max of a list with one element appended moves to that element only when it is strictly larger |
| CameraUtils.MaxOfCollected | camera/src/main/java/com/andrasta/dashi/camera/CameraUtils.java:103-123 | the maximum of the list the loop collects is the option the reference choice names, and the list is empty exactly when the reference finds nothing |
| CameraUtils.ChooseOptimalSize | camera/src/main/java/com/andrasta/dashi/camera/CameraUtils.java:94-128 | returns one of the choices: the first smallest compliant option that covers the view when there is one, else the first largest compliant option, else the first choice; compliant means not broken, within the maximum, and of the requested aspect ratio by int arithmetic; so a broken size comes back only as the first choice when nothing is compliant |
| CameraUtils.PreviewBounds | camera/src/main/java/com/andrasta/dashi/camera/CameraUtils.java:217-237 | the preview size and display size are swapped when the dimensions are swapped, and the bound is then clamped to 1920x1080 |
| ImageUtil.ByteBuffer.Get | camera/src/main/java/com/andrasta/dashi/camera/ImageUtil.java:51-53 | java.nio's bulk get: bad bounds throw IndexOutOfBounds, too few remaining bytes throw BufferUnderflow, both changing nothing; otherwise the next bytes land at the offset, the rest of the array is untouched and the position moves past them |
| ImageUtil.DrainInto | camera/src/main/java/com/andrasta/dashi/camera/ImageUtil.java:51-53 | one bulk get of all remaining bytes of a plane copies them to the offset and leaves the plane with nothing remaining |
| ImageUtil.YUV420888toNV21 | camera/src/main/java/com/andrasta/dashi/camera/ImageUtil.java:36-56 | the NV21 array is exactly as long as the three planes' remaining bytes and holds the Y bytes, then the V bytes, then the U bytes; every plane is consumed to its limit |
| ImageUtil.PlanesInOrder | camera/src/main/java/com/andrasta/dashi/camera/ImageUtil.java:46-53 | the three copies at offsets 0, ySize and ySize + vSize into an array sized for all three leave exactly Y, V, U in that order |
| ImageUtil.ImageToJpeg | camera/src/main/java/com/andrasta/dashi/camera/ImageUtil.java:21-34 | a JPEG image yields a copy of its first plane's whole backing array, leaving that plane read to its limit, and underflows, leaving it unread, when fewer bytes than its capacity remain; a YUV_420_888 image yields the encoding of its NV21 layout and leaves all three planes read to their limits; any other format yields null and reads nothing |
| ImageUtil.JpegCopyNeedsFullBuffer | camera/src/main/java/com/andrasta/dashi/camera/ImageUtil.java:25-27 | the capacity-sized copy of a JPEG plane succeeds exactly when the buffer is unread and its limit is its capacity, and then copies its whole content |
| ViewGeometry.NarrowFitsHeight | dashi-app/src/main/java/com/andrasta/dashi/PolygonView.java:72-73 | when the available width is below the height's ratio-scaled width, the width's ratio-scaled height is below the available height |
| ViewGeometry.AspectFit | dashi-app/src/main/java/com/andrasta/dashi/PolygonView.java:69-77 | the measured size keeps the available width or the available height, and keeps both when a ratio component is 0 |
| ViewGeometry.ExactFitWithin | dashi-app/src/main/java/com/andrasta/dashi/PolygonView.java:69-77 | the exact aspect-fit never exceeds the available size and fills it in at least one dimension |
| ViewGeometry.AspectFitWithoutOverflow | dashi-app/src/main/java/com/andrasta/dashi/PolygonView.java:69-77 | while the products stay within int range, the int arithmetic of onMeasure is the exact floor-division fit |
| ViewGeometry.AspectFitWithin | dashi-app/src/main/java/com/andrasta/dashi/PolygonView.java:69-77 | for non-negative sizes, positive ratios and no int overflow, the measured size is non-negative, within the available size, and equal to it in one dimension |
| ViewGeometry.ScaleIsZero | dashi-app/src/main/java/com/andrasta/dashi/PolygonView.java:42-43 | a scale factor, view extent over source extent, is zero exactly when that quotient is zero; a zero source extent gives NaN or an infinity, never zero |
| ViewGeometry.ClosedOutline | dashi-app/src/main/java/com/andrasta/dashi/PolygonView.java:87-92 | one segment per vertex: each vertex to the next, and the last back to the first |
| ViewGeometry.ClosedOutlineIsChain | dashi-app/src/main/java/com/andrasta/dashi/PolygonView.java:87-92 | the outline is one closed chain: each segment starts where the previous ended, the first starts where the last ends, and segment i starts at vertex i |
| AppPolygonView.PolygonView.constructor | dashi-app/src/main/java/com/andrasta/dashi/PolygonView.java:18-23 | a new view has no aspect ratio, no polygon, and both scale factors at 0 |
| AppPolygonView.PolygonView.SetPolygon | dashi-app/src/main/java/com/andrasta/dashi/PolygonView.java:40-45 | stores the polygon, sets each scale factor to zero exactly when the view extent is 0 and the source extent is not, invalidates once, and changes nothing else |
| AppPolygonView.PolygonView.Clear | dashi-app/src/main/java/com/andrasta/dashi/PolygonView.java:47-53 | afterwards there is no polygon; it invalidates only when there was one, so a second clear changes nothing |
| AppPolygonView.PolygonView.SetAspectRatio | dashi-app/src/main/java/com/andrasta/dashi/PolygonView.java:55-62 | a negative component throws IllegalArgumentException "Size cannot be negative." and changes nothing; otherwise both components are stored and one layout is requested |
| AppPolygonView.PolygonView.OnMeasure | dashi-app/src/main/java/com/andrasta/dashi/PolygonView.java:64-78 | the measured size is the aspect-fit of the available size, which AspectFitWithin bounds |
| AppPolygonView.PolygonView.OnDraw | dashi-app/src/main/java/com/andrasta/dashi/PolygonView.java:80-93 | nothing is stroked without a polygon of at least two points and non-zero scale factors; otherwise the closed outline, in order |
| LaneViews.LaneView.constructor | dashi-app/src/main/java/com/andrasta/dashi/view/LaneView.java:26-30 | a new view has no lanes, no aspect ratio, and both scale factors at 0 |
| LaneViews.LaneView.SetLanes | dashi-app/src/main/java/com/andrasta/dashi/view/LaneView.java:49-56 | null lanes throw IllegalArgumentException and change nothing; otherwise it stores the lanes, sets each scale factor to zero exactly when the view extent is 0 and the source extent is not, and invalidates once |
| LaneViews.LaneView.Clear | dashi-app/src/main/java/com/andrasta/dashi/view/LaneView.java:58-64 | afterwards there are no lanes; it invalidates only when there were some, so a second clear changes nothing |
| LaneViews.LaneView.SetAspectRatio | dashi-app/src/main/java/com/andrasta/dashi/view/LaneView.java:66-73 | a negative component throws IllegalArgumentException "Size cannot be negative." and changes nothing; otherwise both components are stored and one layout is requested |
| LaneViews.LaneView.OnMeasure | dashi-app/src/main/java/com/andrasta/dashi/view/LaneView.java:75-89 | the measured size is the aspect-fit of the available size, which AspectFitWithin bounds |
| LaneViews.LaneView.OnDraw | dashi-app/src/main/java/com/andrasta/dashi/view/LaneView.java:103-112 | nothing is drawn without lanes or with a zero scale factor; otherwise exactly four points give the lines 0-1 and 2-3, and any other count throws RuntimeException "Wrong LaneDetectorResult response" |
| ViewPolygonView.Landscape | dashi-app/src/main/java/com/andrasta/dashi/view/PolygonView.java:74-82 | a size with a zero side is kept as set; otherwise the same two sides, the larger first |
| ViewPolygonView.PolygonView.constructor | dashi-app/src/main/java/com/andrasta/dashi/view/PolygonView.java:25-27 | a new view has size 0x0, no polygon, and both dividers at 0 |
| ViewPolygonView.PolygonView.SetViewSize | dashi-app/src/main/java/com/andrasta/dashi/view/PolygonView.java:46-51 | stores the width and height as given and changes nothing else |
| ViewPolygonView.PolygonView.SetPolygon | dashi-app/src/main/java/com/andrasta/dashi/view/PolygonView.java:53-61 | stores the polygon, sets each divider to zero exactly when the set view extent is 0 and the source extent is not, and invalidates once |
| ViewPolygonView.PolygonView.Clear | dashi-app/src/main/java/com/andrasta/dashi/view/PolygonView.java:63-69 | afterwards there is no polygon; it invalidates only when there was one, so a second clear changes nothing |
| ViewPolygonView.PolygonView.OnMeasure | dashi-app/src/main/java/com/andrasta/dashi/view/PolygonView.java:71-83 | the measured size is the set size turned to landscape |
| ViewPolygonView.PolygonView.OnDraw | dashi-app/src/main/java/com/andrasta/dashi/view/PolygonView.java:85-99 | without a polygon of at least two points and non-zero dividers nothing is drawn; otherwise the closed outline in order, then the frame |
| FramePipeline.Admit | dashi-app/src/main/java/com/andrasta/dashi/alpr/ImageHandler.java:91-118 | recognize's checks in their order: not started, then no free permit, then the queue interval not yet elapsed since the last stamp, then a full queue; the image passes the gate exactly when started, a permit is free and the interval has elapsed |
| FramePipeline.Submit | dashi-app/src/main/java/com/andrasta/dashi/alpr/ImageHandler.java:91-118 | one recognize call only appends: to the queue or to the closed images, exactly one of them, and the stamp stays or becomes the call's time |
| FramePipeline.Run | dashi-app/src/main/java/com/andrasta/dashi/alpr/ImageHandler.java:91-118 | a run of recognize calls keeps the old queue and closes as prefixes and accounts for every frame, queued or closed |
| FramePipeline.SubmitQueuesOrCloses | dashi-app/src/main/java/com/andrasta/dashi/alpr/ImageHandler.java:91-118 | each image handed in is either appended at the queue tail or closed, never both, and the queue stays within its capacity |
| FramePipeline.RunIsFifo | dashi-app/src/main/java/com/andrasta/dashi/alpr/ImageHandler.java:91-118 | a run of recognize calls appends the admitted images to the queue in arrival order, closes the others in arrival order, and keeps the queue within capacity |
| FramePipeline.RunWithinCapacity | dashi-app/src/main/java/com/andrasta/dashi/alpr/ImageHandler.java:113-116 | no run of recognize calls grows the queue beyond THREADS * 2 |
| FramePipeline.RunQueues | dashi-app/src/main/java/com/andrasta/dashi/alpr/ImageHandler.java:113-116 | after a run the queue is the old queue followed by the admitted images |
| FramePipeline.QueueStep | dashi-app/src/main/java/com/andrasta/dashi/alpr/ImageHandler.java:113-116 | the first frame of a run adds to the queue exactly what the whole run's admission list starts with |
| FramePipeline.RunCloses | dashi-app/src/main/java/com/andrasta/dashi/alpr/ImageHandler.java:96-116 | after a run the closed images are the earlier ones followed by the rejected images, in order |
| FramePipeline.RunIsLossless | dashi-app/src/main/java/com/andrasta/dashi/alpr/ImageHandler.java:91-118 | every image of a run is admitted or rejected: together they are exactly the run's images |
| FramePipeline.StampsAreSpaced | dashi-app/src/main/java/com/andrasta/dashi/alpr/ImageHandler.java:107-113 | successive updates of lastImageQueueTime are at least imageQueueTimeout apart, the first one at least that long after the starting stamp, and the run ends on the last one |
| FramePipeline.AdmittedAreStamped | dashi-app/src/main/java/com/andrasta/dashi/alpr/ImageHandler.java:107-116 | a run queues no more images than it stamps |
| FramePipeline.GateClosedWithinInterval | dashi-app/src/main/java/com/andrasta/dashi/alpr/ImageHandler.java:107-113 | with a positive interval, frames arriving at the very time of the last stamp are all turned away |
| FramePipeline.SameInstantQueuesAtMostOne | dashi-app/src/main/java/com/andrasta/dashi/alpr/ImageHandler.java:107-116 | with a positive interval, a burst of frames arriving in the same millisecond queues at most one of them |
| FramePipeline.BusyCountBounded | dashi-app/src/main/java/com/andrasta/dashi/alpr/ImageHandler.java:185-196 | at most one permit is held per worker, and none when no worker is busy |
| FramePipeline.NoLeakAfterAppend | dashi-app/src/main/java/com/andrasta/dashi/alpr/ImageHandler.java:124-127 | starting a new polling worker loses no image and holds no extra permit |
| FramePipeline.NoLeakAfterClose | dashi-app/src/main/java/com/andrasta/dashi/alpr/ImageHandler.java:96-116 | closing images never loses one |
| FramePipeline.NoLeakAfterDrain | dashi-app/src/main/java/com/andrasta/dashi/alpr/ImageHandler.java:152-156 | closing the whole queue and emptying it loses no image |
| FramePipeline.NoLeakAfterSettle | dashi-app/src/main/java/com/andrasta/dashi/alpr/ImageHandler.java:195-211 | a worker may let go of its image once that image has been closed without losing any |
| FramePipeline.NoLeakAfterTake | dashi-app/src/main/java/com/andrasta/dashi/alpr/ImageHandler.java:177-182 | a polling worker that takes the queue head and holds it, or closes it, loses no image |
| FramePipeline.ChildPath | dashi-app/src/main/java/com/andrasta/dashi/alpr/ImageHandler.java:71-72 | new File(dir, name) gives a path ending in the name and starting with the directory, with one separator between them |
| FramePipeline.CheckAlprConfiguration | dashi-app/src/main/java/com/andrasta/dashi/alpr/ImageHandler.java:78-85 | succeeds exactly when the config file exists as a file and the runtime directory exists as a directory; the missing config file is reported first, each with its "No alpr ..." message and path |
| FramePipeline.ConfigurationKindsMatter | dashi-app/src/main/java/com/andrasta/dashi/alpr/ImageHandler.java:78-85 | a config path that is a directory, or a runtime path that is a plain file, is refused |
| FramePipeline.ConfigPathsDiffer | dashi-app/src/main/java/com/andrasta/dashi/alpr/ImageHandler.java:71-72 | the configuration file and the runtime directory are different paths |
| ImageHandlers.Uncaught | dashi-app/src/main/java/com/andrasta/dashi/alpr/ImageHandler.java:193-194 | an IllegalStateException is swallowed by the per-image catch; any other exception gets out unchanged |
| ImageHandlers.Escaping | dashi-app/src/main/java/com/andrasta/dashi/alpr/ImageHandler.java:184-257 | the exception reaching the outer catch is the first failure, in running order, among reading the Y buffer, plate recognition, the onLicensePlateDetected call, lane detection and the onLaneDetected call, other than IllegalStateException; an empty Y buffer lets none out |
| ImageHandlers.Delivered | dashi-app/src/main/java/com/andrasta/dashi/alpr/ImageHandler.java:184-257 | one pass makes at most three callbacks: the plate result (with a bitmap exactly when there are plates and a bitmap width is set) when recognition ran; then the lanes with the image's size, exactly when the plate callback returned and lane detection succeeded; and onFailure last exactly when an exception got out, one thrown by a callback included |
| ImageHandlers.ImageHandler.constructor | dashi-app/src/main/java/com/andrasta/dashi/alpr/ImageHandler.java:39-63 | a new handler for THREADS > 0: not started, empty queue of capacity THREADS * 2, THREADS permits, counters 0, nothing closed |
| ImageHandlers.ImageHandler.Create | dashi-app/src/main/java/com/andrasta/dashi/alpr/ImageHandler.java:64-85 | checks the directory, then the callback, for null, then the configuration, throwing the first failure; otherwise a fresh handler that is not started |
| ImageHandlers.ImageHandler.PollQueue | dashi-app/src/main/java/com/andrasta/dashi/alpr/ImageHandler.java:177 | poll removes and returns the queue head, or null on an empty queue |
| ImageHandlers.ImageHandler.Recognize | dashi-app/src/main/java/com/andrasta/dashi/alpr/ImageHandler.java:91-118 | a null image throws; otherwise the result is the admission decision on the old state; the queued image is appended at the tail, every other image is closed once, lastImageQueueTime becomes now exactly when the gate is passed, and the handler invariant (permit count, the queue bound, no lost image) is kept |
| ImageHandlers.ImageHandler.ResetTimeoutsAndStatistics | dashi-app/src/main/java/com/andrasta/dashi/alpr/ImageHandler.java:131-139 | the counters and the gate stamp are 0 and the queue timeout is 1000 |
| ImageHandlers.ImageHandler.Start | dashi-app/src/main/java/com/andrasta/dashi/alpr/ImageHandler.java:120-129 | on a started handler nothing changes; otherwise the statistics are reset and every slot gets a new polling worker with a clear stop flag |
| ImageHandlers.ImageHandler.StartWorkers | dashi-app/src/main/java/com/andrasta/dashi/alpr/ImageHandler.java:124-127 | slot i gets the i-th new worker, which polls and is not stopped; the handler is then started and the invariant holds |
| ImageHandlers.ImageHandler.Stop | dashi-app/src/main/java/com/andrasta/dashi/alpr/ImageHandler.java:141-157 | on a stopped handler nothing changes; otherwise every slot's worker is flagged to stop, every slot is cleared, and the queued images are closed in queue order, leaving the queue empty |
| ImageHandlers.ImageHandler.StopWorkers | dashi-app/src/main/java/com/andrasta/dashi/alpr/ImageHandler.java:146-149 | exactly the workers in the slots get their stop flag set, and every slot is cleared |
| ImageHandlers.ImageHandler.DrainQueue | dashi-app/src/main/java/com/andrasta/dashi/alpr/ImageHandler.java:152-156 | polls and closes until the queue is empty: the images closed are the queue, in order |
| ImageHandlers.ImageHandler.PollStep | dashi-app/src/main/java/com/andrasta/dashi/alpr/ImageHandler.java:176-211 | a polling worker takes the queue head; with its stop flag set it ends, closing what it took; with nothing taken it polls again; otherwise it holds the image and goes on to acquire a permit |
| ImageHandlers.ImageHandler.AcquireStep | dashi-app/src/main/java/com/andrasta/dashi/alpr/ImageHandler.java:185 | a worker holding an image takes a free permit and becomes busy |
| ImageHandlers.ImageHandler.LogStats | dashi-app/src/main/java/com/andrasta/dashi/alpr/ImageHandler.java:259-268 | one more image handled, its processing time added to the total, and the queue timeout replaced by the computed value |
| ImageHandlers.ImageHandler.RecognizeImage | dashi-app/src/main/java/com/andrasta/dashi/alpr/ImageHandler.java:184-257 | the per-image try: what gets out is Escaping's exception, an empty Y buffer skips to the next poll, the callbacks are the plate and lane results (a throwing plate callback skips lane detection), and the statistics count an image exactly when plate recognition returned |
| ImageHandlers.ImageHandler.FinishStep | dashi-app/src/main/java/com/andrasta/dashi/alpr/ImageHandler.java:184-211 | a busy worker's pass: the permit is given back, the image is closed at once, the callbacks are Delivered's, and the worker polls again unless an exception got out or (unless the Y buffer was null or empty) its stop flag is set, in which case it ends and the image is closed a second time |
| ImageHandlers.ImageHandler.Settle | dashi-app/src/main/java/com/andrasta/dashi/alpr/ImageHandler.java:193-211 | the finally gives back the permit and closes the image; an escaped exception goes to onFailure; an escaped exception, or a stop flag read after the pass, ends the worker with a second close |
| ImageHandlers.ImageHandler.PermitsBounded | dashi-app/src/main/java/com/andrasta/dashi/alpr/ImageHandler.java:185-196 | available permits never exceed THREADS, and all THREADS are available while no worker is busy |
| ImageHandlers.ImageHandler.SetBitmapSize | dashi-app/src/main/java/com/andrasta/dashi/alpr/ImageHandler.java:159-162 | stores the bitmap width and height and changes nothing else |
| ImageHandlers.QueuedScenario | dashi-app/src/main/java/com/andrasta/dashi/alpr/ImageHandler.java:91-129 | a started one-worker handler queues a frame handed in at time 1000 and stamps that time |
| ImageHandlers.RecognitionScenario | dashi-app/src/main/java/com/andrasta/dashi/alpr/ImageHandler.java:171-237 | the queued frame is polled, recognised with plates and lanes, counted once, closed once, and the worker polls again |
| ImageHandlers.StopScenario | dashi-app/src/main/java/com/andrasta/dashi/alpr/ImageHandler.java:141-211 | after stop the worker ends at its next poll, nothing more is closed and all permits are free |
| ImageHandlers.LaneCallbackFailureScenario | dashi-app/src/main/java/com/andrasta/dashi/alpr/ImageHandler.java:184-257 | an onLaneDetected that throws: the plate and lane results are delivered, then onFailure with that exception; the worker ends and the frame is closed twice |
| ImageHandlers.ClosedInCallbackScenario | dashi-app/src/main/java/com/andrasta/dashi/alpr/ImageHandler.java:184-237 | an onLicensePlateDetected that throws IllegalStateException: the per-image catch swallows it, lane detection is skipped, the frame is closed once and the worker polls again |
| AlprHandlers.Delivered | dashi-app/src/main/java/com/andrasta/dashi/alpr/AlprHandler.java:193-225 | when recognition fails, onFailure alone with its exception, whatever it is; otherwise onComplete with the result (with a bitmap exactly when there are plates and a bitmap width is set), followed by onFailure exactly when the onComplete call threw |
| AlprHandlers.Escaping | dashi-app/src/main/java/com/andrasta/dashi/alpr/AlprHandler.java:186-225 | an exception reaches the outer catch exactly when recognition or the onComplete call threw; recognition's comes first |
| AlprHandlers.AlprHandler.constructor | dashi-app/src/main/java/com/andrasta/dashi/alpr/AlprHandler.java:44-62 | a new handler for THREADS > 0: not started, empty queue of capacity THREADS * 2, THREADS permits, counters 0, nothing closed |
| AlprHandlers.AlprHandler.Create | dashi-app/src/main/java/com/andrasta/dashi/alpr/AlprHandler.java:68-87 | checks the directory, the callback and the matcher for null, in that order, then the configuration, throwing the first failure; otherwise a fresh handler that is not started |
| AlprHandlers.AlprHandler.PollQueue | dashi-app/src/main/java/com/andrasta/dashi/alpr/AlprHandler.java:179 | poll removes and returns the queue head, or null on an empty queue |
| AlprHandlers.AlprHandler.Recognize | dashi-app/src/main/java/com/andrasta/dashi/alpr/AlprHandler.java:93-120 | a null image throws; otherwise the result is the admission decision on the old state; the queued image is appended at the tail, every other image is closed once, lastImageQueueTime becomes now exactly when the gate is passed, and the handler invariant is kept |
| AlprHandlers.AlprHandler.ResetTimeoutsAndStatistics | dashi-app/src/main/java/com/andrasta/dashi/alpr/AlprHandler.java:133-141 | the counters and the gate stamp are 0 and the queue timeout is 1000 |
| AlprHandlers.AlprHandler.Start | dashi-app/src/main/java/com/andrasta/dashi/alpr/AlprHandler.java:122-131 | on a started handler nothing changes; otherwise the statistics are reset and every slot gets a new polling worker with a clear stop flag |
| AlprHandlers.AlprHandler.StartWorkers | dashi-app/src/main/java/com/andrasta/dashi/alpr/AlprHandler.java:126-129 | slot i gets the i-th new worker, which polls and is not stopped; the handler is then started and the invariant holds |
| AlprHandlers.AlprHandler.Stop | dashi-app/src/main/java/com/andrasta/dashi/alpr/AlprHandler.java:143-159 | on a stopped handler nothing changes; otherwise every slot's worker is flagged to stop, every slot is cleared, and the queued images are closed in queue order, leaving the queue empty |
| AlprHandlers.AlprHandler.StopWorkers | dashi-app/src/main/java/com/andrasta/dashi/alpr/AlprHandler.java:148-151 | exactly the workers in the slots get their stop flag set, and every slot is cleared |
| AlprHandlers.AlprHandler.DrainQueue | dashi-app/src/main/java/com/andrasta/dashi/alpr/AlprHandler.java:154-158 | polls and closes until the queue is empty: the images closed are the queue, in order |
| AlprHandlers.AlprHandler.PollStep | dashi-app/src/main/java/com/andrasta/dashi/alpr/AlprHandler.java:178-199 | a polling worker takes the queue head; with its stop flag set it ends, closing what it took; with nothing taken it polls again; otherwise it holds the image and goes on to acquire a permit |
| AlprHandlers.AlprHandler.AcquireStep | dashi-app/src/main/java/com/andrasta/dashi/alpr/AlprHandler.java:205 | a worker holding an image takes a free permit and becomes busy |
| AlprHandlers.AlprHandler.LogStats | dashi-app/src/main/java/com/andrasta/dashi/alpr/AlprHandler.java:232-241 | one more image handled, its processing time added to the total, and the queue timeout replaced by the computed value |
| AlprHandlers.AlprHandler.FinishStep | dashi-app/src/main/java/com/andrasta/dashi/alpr/AlprHandler.java:203-230 | a busy worker's pass: the statistics count the image and onComplete is called when recognition returns; the permit is given back and the image closed; an exception from recognition or from onComplete, or a set stop flag, ends the worker with a second close |
| AlprHandlers.AlprHandler.Settle | dashi-app/src/main/java/com/andrasta/dashi/alpr/AlprHandler.java:186-230 | the finally gives back the permit and closes the image; an exception goes to onFailure; an exception or a set stop flag ends the worker with a second close |
| AlprHandlers.AlprHandler.PermitsBounded | dashi-app/src/main/java/com/andrasta/dashi/alpr/AlprHandler.java:205-227 | available permits never exceed THREADS, and all THREADS are available while no worker is busy |
| AlprHandlers.AlprHandler.SetBitmapSize | dashi-app/src/main/java/com/andrasta/dashi/alpr/AlprHandler.java:161-164 | stores the bitmap width and height and changes nothing else |
| AlprHandlers.QueuedScenario | dashi-app/src/main/java/com/andrasta/dashi/alpr/AlprHandler.java:93-131 | a started one-worker handler queues a frame handed in at time 1000 and stamps that time |
| AlprHandlers.RecognitionScenario | dashi-app/src/main/java/com/andrasta/dashi/alpr/AlprHandler.java:173-230 | the queued frame is polled, recognised, counted once, closed once, and the worker polls again |
| AlprHandlers.FailureScenario | dashi-app/src/main/java/com/andrasta/dashi/alpr/AlprHandler.java:186-230 | a recognition failing with IllegalStateException reaches onFailure, ends the worker, and that frame is closed twice |
| AlprHandlers.CallbackFailureScenario | dashi-app/src/main/java/com/andrasta/dashi/alpr/AlprHandler.java:186-230 | an onComplete that throws: the result is delivered, then onFailure with that exception; the worker ends and the frame is closed twice |

## Left out

- Threads: the executor, the worker threads, `AtomicBoolean` stop flags, blocking `Semaphore.acquire`, and `poll` with its 100 ms timeout. Workers are an interleaving of atomic steps. So the unsynchronised reads in `recognize` are not modelled.
- Callbacks: a callback posted through `Handler.post` runs later on the handler's thread; the model records it when it is posted, and its exceptions never reach the worker, so its call is given as `Done(())`. A callback called directly may throw, and that exception is modelled.
- ImageHandlers.Delivered: records a posted callback at the moment it is posted, not when the handler's thread runs it.
- AlprHandlers.Delivered: records a posted onComplete at the moment it is posted, not when the handler's thread runs it.
- `InterruptedException`: an interrupted `acquire` still releases a permit in its `finally`; this path is not modelled. Neither is an interrupted `poll`.
- The native engine: the `Alpr` and `LaneDetector` objects, their construction and their `close`. `alpr.close()` at alpr/ImageHandler.java:212 is not modelled. Recognition is an outcome parameter of `FinishStep`.
- Bitmap decoding in `recognizeLicensePlate` and AlprHandler's `recognize`: only whether a bitmap is decoded is recorded, and its own failures are not modelled.
- The float pace statistics (`pace`, best/worst/average pace, `movingAvg`) and the `Math.round` timeout formula are floating point. The new queue timeout is the `adaptedTimeout` parameter of `LogStats` and `FinishStep`.
- Logging and `getThreadsNum`: they log, or only return THREADS, and change nothing.
- FramePipeline.Admit: `System.currentTimeMillis()` is read twice in `recognize`, for the gate test and for the stamp; the model reads one `now` for both. `now - lastImageQueueTime` and `imageQueueTimeout` are Java `long`s; the model does not wrap their arithmetic at 64 bits.
- ImageHandlers.ImageHandler.LogStats: `handledImageCounter` and `handlingTime` are Java `long`s; the model does not wrap them at 64 bits.
- AlprHandlers.AlprHandler.LogStats: the same unbounded counters as in ImageHandler.
- ImageHandlers.ImageHandler.FinishStep: the Y plane is an outcome parameter. A null buffer and an empty one take the same `continue` branch, so both are given as `Done(0)`.
- FramePipeline.CheckAlprConfiguration: the file system is a map parameter. The messages use the joined path, not `getAbsolutePath`, which resolves it against the working directory.
- CyclicBuffers.CyclicBuffer.Add: requires a capacity above 0. In Java, `add` on a zero-length buffer throws `ArrayIndexOutOfBoundsException`; that path is not modelled. A negative capacity cannot be given, since the model takes a `nat`; Java throws `NegativeArraySizeException` for one.
- CameraUtils.ChooseOptimalSize: requires at least one choice. With none, Java throws `ArrayIndexOutOfBoundsException` at `choices[0]`. The aspect-ratio width is non-zero by its type. With a zero width, Java throws `ArithmeticException` only once an option passes the skip test and both size bounds, because `&&` short-circuits; with no such option it returns without dividing. The model excludes all zero-width inputs, including those.
- CameraUtils: `configureTransform` is float `Matrix` work. The `CameraManager` parts of `initCameraConfig` and all of `getMainCameraImageSizes` are Android Camera2 plumbing.
- ImageUtil.YUV420888toNV21: requires three distinct plane buffers whose remaining bytes sum to at most `Integer.MAX_VALUE`. The int overflow of the array size beyond that is not modelled.
- ImageUtil.ImageToJpeg: requires that the planes the format reads exist. `getPlanes` returning fewer planes is not modelled.
- The image codecs (`NV21toJPEG`, `imageToBitmap`, `toGrayScale`) are library codecs and floating point. The NV21-to-JPEG codec is a function parameter.
- LicensePlates.ToUpper: the case mapping covers the ASCII letters only. Java's `equalsIgnoreCase` also folds other Unicode letters.
- LicensePlates.ToLower: built on the same ASCII-only case mapping as LicensePlates.ToUpper, so non-ASCII letters do not fold.
- LicensePlates.EqualsIgnoreCase: built on the same ASCII-only case mapping as LicensePlates.ToUpper, so non-ASCII letters do not fold.
- LicensePlates.Matches: built on the same ASCII-only case mapping as LicensePlates.ToUpper, so non-ASCII letters do not fold.
- LicensePlates.CharEqualsIgnoreCaseIsUpperEquality: built on the same ASCII-only case mapping as LicensePlates.ToUpper, so non-ASCII letters do not fold.
- LicensePlates.MatchesIffSameUpperCase: built on the same ASCII-only case mapping as LicensePlates.ToUpper, so non-ASCII letters do not fold.
- LicensePlates.UpperOfLower: built on the same ASCII-only case mapping as LicensePlates.ToUpper, so non-ASCII letters do not fold.
- LicensePlateMatchers.LicensePlateMatcher.FindMatch: confidence is a Dafny `real`. A float NaN, which never matches in Java, cannot be given.
- The network: `sendMatch`, and the `listLicenses` call of `initialize`, are HTTP through Retrofit. Only the `onResponse` watchlist replacement is modelled.
- CameraConfigs.Builder.Build: Java hands the builder's own lists to the configuration, so requests added after `build` show up in it; the model copies the lists as values.
- `Request.getCaptureRequest` is Camera2 plumbing. It is represented by the value `Snapshot` of template, surface and keys. `CameraAccessException` is not modelled. Neither are the trivial getters of `CameraConfig` and `Builder`.
- `Preconditions.assertUiThread` and `assertNonUiThread` depend on Looper threading.
- Views: painting, `invalidate`/`requestLayout` (counted only), and `MeasureSpec` decoding (the sizes are parameters). The current view size of `setPolygon`/`setLanes` is a parameter. The float scale factors keep only whether they are zero.
- Polygon points are never null in the model; a null point makes Java's `onDraw` throw.
- `LaneView.onSizeChanged` and the region-of-interest rectangle in its `onDraw` call a `RegionOfInterest.calculateRecognitionRegion` that this model does not contain.
- The `toString` methods of the result records, the legacy dashi-app/.../AlprHandler.java, both `ImageSaver` classes, and the activities, services and persistence helpers: formatting, a stub, file I/O and UI.
