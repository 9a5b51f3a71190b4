# Portfolio site core, modelled in Dafny

This project models the behavioural core of a Next.js portfolio site and proves properties of that model. It covers:

- **The custom GPU cursor** (`components/GPUCursor.tsx`):
  - `CursorColor` holds perceptual luminance, the light and dark appearance modes, the hysteresis between them and the colour-smoothing scalar.
  - `CursorSampler` samples luminance under the dot, from the hit stack's backgrounds and from the pixels of media elements.
  - `CursorMotion` holds the magnetic pull, the speed-dependent ring lag and the acceleration-driven scales.
  - `CursorEngine` holds the effect's closure state as a class: sticky hover detection, the pointer-move handler and one animation frame.
- **Exclusive video playback** (`lib/videoController.ts`), in `VideoController`. The registry is modelled as a class, with a world model of play/pause/ended event runs.
- **The upload API route** (`app/api/upload/route.ts`), in `UploadRoute`: the per-IP fixed-window rate limiter over a mutable bucket map, the client-address rule, the body check and the four handlers.
- **Touch gestures**:
  - the gallery swipe hook (`components/hooks/useSwipeGallery.ts`) in `SwipeGallery`;
  - the page-navigation swipe hook (`hooks/useSwipeNavigation.ts`) in `SwipeNavigation`;
  - the project page's inline copy of it (`components/ProjectSwipeShell.tsx`) in `ProjectSwipeShell`;
  - video scrubbing (`components/hooks/useSwipeScrubVideo.ts`) in `SwipeScrub`.
- **The editorial video player** (`components/EditorialVideoPlayer.tsx`), in `EditorialPlayer`: the time formatter, the index labels, the overlay rule and the state its handlers change.
- **The availability badge's clock** (`components/AvailabilityStatus.tsx`), in `AvailabilityStatus`.
- **The project catalogue and its data source** (`lib/projects.ts`, `lib/project-source.ts`), in `Projects` and `ProjectSource`.
- **Cloudflare R2 configuration** (`lib/r2.ts`), in `R2`: environment validation, the memoised client and public object URLs.
- **The edge middleware** (`middleware.ts`), in `Middleware`: the Content-Security-Policy, the HTTP-to-HTTPS redirect and the security headers.

`Common` holds the shared Option/Result wrappers and geometry. `Text` models the JavaScript string built-ins the core uses:
- `String(n)`;
- `padStart`;
- `join`;
- `split`;
- `trim`;
- `startsWith`;
- `includes`.

Code that mutates state in place is modelled as classes whose methods state the whole new state:
- the cursor's closure variables;
- the rate-limit map;
- the video registry;
- the R2 client cache;
- the hooks' refs;
- the player's state.

Each loop in the source is a method proved against a specification function:
- the hit-stack walk;
- the pixel loop;
- the interactive-element search.

Pure computations are functions with lemmas.

Three behaviours of the source are worth noting:

- **Luma weights.** The luma weights are 0.299, 0.587 and 0.114, as the code has them; these are the weights of ITU-R BT.601. The source's comments call them ITU-R BT.709 coefficients. The model follows the numbers.
- **The opacity stop check.** The check that ends the background walk re-reads "the last number before `)`" of the computed colour. For `rgb(r, g, b)` that number is the blue channel, not an alpha. So an opaque background with blue 0 does not stop the walk, and the layers below it are still averaged in.
  - `CursorSampler.OpaqueRgbStopsIffBlue` proves this rule as written.
  - `CursorSampler.OpaqueBlackLetsWhiteThrough` and `CursorSampler.OpaqueNearBlackHidesWhite` show its effect.
  - The model keeps the code's behaviour throughout.
- **Time limits.** `ProjectSwipeShell` repeats the navigation hook's guards with a 400 ms limit instead of 500 ms. `ProjectSwipeShell.ShellStricterThanHook` relates the two.

## Model

| member | source | states |
|---|---|---|
| CursorColor.Luminance | components/GPUCursor.tsx:186-193 | luminance is non-negative, at most 1 for channels in 0..255, r/255 for a grey, 0 for black (weights 0.299/0.587/0.114, lines 38-42) |
| CursorColor.Lerp | components/GPUCursor.tsx:224-226 | t = 0 gives a, t = 1 gives b, and t in [0, 1] stays between a and b |
| CursorColor.LerpDistance | components/GPUCursor.tsx:224-226 | after a lerp by t the remaining distance to b is (1 - t) times the original distance |
| CursorColor.Clamp | components/GPUCursor.tsx:228-230 | the result never exceeds max; it is at least min when min <= max; a value in range passes unchanged, values outside go to the nearer bound |
| CursorColor.Round | components/GPUCursor.tsx:204-206 | Math.round for the values interpolateColor rounds: the integer nearest x, with halves rounded up |
| CursorColor.InterpolateColor | components/GPUCursor.tsx:199-211 | the three channels are equal; for t in [0, 1] they lie in 0..255 and the opacities between the modes' values (lines 56-77); t = 0 is light mode and t = 1 dark mode |
| CursorColor.NextDarkMode | components/GPUCursor.tsx:503-513 | in light mode the cursor turns dark exactly when luminance < 0.45 - 0.08; in dark mode it turns back exactly when luminance > 0.45 + 0.08 |
| CursorColor.DeadBand | components/GPUCursor.tsx:47-48 | a sample inside [0.37, 0.53] never changes the mode |
| CursorColor.NoFlickerInsideBand | components/GPUCursor.tsx:503-513 | any run of frames whose samples all stay inside the band leaves the mode as it was |
| CursorColor.FlipNeedsSampleOutsideBand | components/GPUCursor.tsx:503-513 | if the mode changed over a run of frames, some sample in it lay outside [0.37, 0.53] |
| CursorColor.ColorStep | components/GPUCursor.tsx:515-521 | one smoothing step keeps the scalar in [0, 1], leaves 0.65 of the distance to the mode's value, and never reaches that value unless it started there |
| CursorColor.ColorConvergence | components/GPUCursor.tsx:515-521 | after n frames in one mode the distance to the mode's value is 0.65^n times the starting distance |
| CursorMotion.MagnetStrength | components/GPUCursor.tsx:536-540 | within the 80 px range the pull strength lies in (0, 0.35] |
| CursorMotion.MagnetStrengthGrowsCloser | components/GPUCursor.tsx:537-540 | the pull never weakens as the pointer nears the centre; it grows by 0.35/80 per pixel |
| CursorMotion.EffectiveTarget | components/GPUCursor.tsx:527-544 | without hover, without a centre, or at 80 px or more, the dot and ring chase the pointer itself; otherwise they chase a point that, on each axis, is closer to the centre but keeps at least 0.65 of the distance, and differs from the pointer unless the pointer is on the centre |
| CursorMotion.PullTowards | components/GPUCursor.tsx:541-542 | on one axis, a pull of strength in (0, 0.35] moves the point toward the centre without passing it and keeps at least 0.65 of the distance |
| CursorMotion.RingLerp | components/GPUCursor.tsx:550-552 | the ring's factor lies in [0.04, 0.10], below the dot's 0.22, and is 0.10 - 0.0008 * speed until it reaches the floor |
| CursorMotion.RingLerpNonIncreasing | components/GPUCursor.tsx:551-552 | a faster pointer never makes the ring follow more tightly |
| CursorMotion.ScaleDelta | components/GPUCursor.tsx:560-564 | the scale delta lies in [-0.03, 0.03], equals 0.0003 * acceleration when that is in range, and has the sign of the acceleration |
| CursorMotion.DotScaleTarget | components/GPUCursor.tsx:566 | 0.7 while hovering, otherwise within [0.97, 1.03] |
| CursorMotion.RingScaleTarget | components/GPUCursor.tsx:567 | 1.15 while hovering, otherwise within [0.97, 1.03] |
| CursorMotion.SquashOpposite | components/GPUCursor.tsx:566-567 | without hover, the dot shrinks exactly when the ring grows, by the same amount |
| CursorMotion.ScalesStayInRange | components/GPUCursor.tsx:569-570 | one scale lerp keeps the dot scale in [0.7, 1.03] and the ring scale in [0.97, 1.15] |
| CursorMotion.RingLagsDot | components/GPUCursor.tsx:546-554 | on one axis, a ring no closer to the chased point than the dot is still no closer after the frame |
| CursorMotion.RingNeverOvertakes | components/GPUCursor.tsx:546-554 | chasing a fixed point for any number of frames at any speeds, a ring that starts no closer than the dot never gets closer than the dot |
| CursorSampler.PixelSum | components/GPUCursor.tsx:451-462 | the luminance sum of the counting pixels lies between 0 and their number |
| CursorSampler.PixelCountZero | components/GPUCursor.tsx:451-464 | the pixel count is 0 exactly when no RGBA group from the offset on has alpha above 0.1 |
| CursorSampler.MediaLuminance | components/GPUCursor.tsx:406-469 | a media reading, when there is one, lies in [0, 1] |
| CursorSampler.MeanPixelLuminance | components/GPUCursor.tsx:448-464 | the loop returns null exactly when no pixel has alpha above 0.1, and otherwise the mean luminance of the pixels that do, which lies in [0, 1] |
| CursorSampler.SampleMedia | components/GPUCursor.tsx:406-469 | sampleMediaElement returns MediaLuminance: null without a context, outside the box or after a failed read-back |
| CursorSampler.Accumulate | components/GPUCursor.tsx:374-388 | a background whose alpha exceeds 0.1 adds that alpha to the weight; any other background leaves the sums unchanged |
| CursorSampler.StopAlpha | components/GPUCursor.tsx:391-392 | for rgba() the stop check reads the alpha the accumulation weighs with; an unmatched colour counts as opaque; an rgb() colour counts as opaque exactly when its blue channel is not 0 |
| CursorSampler.Stops | components/GPUCursor.tsx:393-395 | the walk stops only once something has been sampled, and never at an rgb() colour whose blue channel is 0 |
| CursorSampler.Finish | components/GPUCursor.tsx:398-399 | with nothing sampled the result is 0.9; the weighted mean of black samples is 0 and of white samples 1 |
| CursorSampler.SampleLuminance | components/GPUCursor.tsx:349-400 | the loop over the hit stack returns exactly SampledLuminance, the front-to-back walk that skips the cursor, returns the first media reading and stops at the first opaque layer |
| CursorSampler.AccumulateBounded | components/GPUCursor.tsx:383-387 | adding a well-formed background keeps 0 <= total <= weight |
| CursorSampler.FinishInUnit | components/GPUCursor.tsx:398-399 | the weighted mean of a bounded sum, or the default 0.9, lies in [0, 1] |
| CursorSampler.WalkInUnit | components/GPUCursor.tsx:349-400 | the walk's answer lies in [0, 1] from any bounded running sum |
| CursorSampler.CursorPartsOnly | components/GPUCursor.tsx:354-356 | a hit stack made only of the cursor's own dot and ring reads as the running mean, 0.9 when nothing was accumulated |
| CursorSampler.SampledInUnit | components/GPUCursor.tsx:346-349 | the sampled luminance always lies in [0, 1], as the doc comment promises |
| CursorSampler.SilentStackGivesDefault | components/GPUCursor.tsx:398-399 | when no layer yields a media reading or a background with alpha above 0.1, the sample is the light default 0.9 |
| CursorSampler.WithoutCursor | components/GPUCursor.tsx:355-356 | the filtered stack is no longer than the original and holds no cursor element |
| CursorSampler.CursorIsTransparent | components/GPUCursor.tsx:355-356 | the cursor's own dot and ring have no effect: the sample equals the sample of the stack without them |
| CursorSampler.BelowDecisiveIgnored | components/GPUCursor.tsx:364-367 | a media reading or an opaque sampled background ends the walk: whatever lies below it never changes the sample |
| CursorSampler.OpaqueRgbStopsIffBlue | components/GPUCursor.tsx:390-395 | an opaque "rgb(r, g, b)" background stops the walk exactly when its blue channel is at least 1, because the stop pattern reads the last number |
| CursorSampler.OpaqueBlackAlone | components/GPUCursor.tsx:398-399 | a lone black layer samples 0 |
| CursorSampler.OpaqueBlackLetsWhiteThrough | components/GPUCursor.tsx:390-395 | an opaque black "rgb(0, 0, 0)" over white does not stop the walk; the pair samples 0.5 |
| CursorSampler.OpaqueNearBlackHidesWhite | components/GPUCursor.tsx:390-395 | with blue 1 the same layer stops the walk, and the white below is not sampled |
| CursorEngine.IsWithinBounds | components/GPUCursor.tsx:293-301 | a point inside the element's own box always lies within the padded bounds, so it keeps the latch |
| CursorEngine.WithinBoundsMargin | components/GPUCursor.tsx:293-301 | a point inside the box keeps the latch; one more than 2 px outside on either axis loses it |
| CursorEngine.Midpoint | components/GPUCursor.tsx:333-336 | the centre is equidistant from opposite sides and lies inside a non-empty box |
| CursorEngine.FirstInteractive | components/GPUCursor.tsx:303-313 | null exactly when no hit matches the selector or has a matching ancestor; otherwise the candidate of the front-most hit that offers one |
| CursorEngine.FindInteractiveElement | components/GPUCursor.tsx:303-313 | the loop returns FirstInteractive of the hit stack |
| CursorEngine.Cursor.constructor | components/GPUCursor.tsx:254-287 | every position at the viewport centre, zero velocity and speed, no hover, scales 1, light mode, colour scalar 0 |
| CursorEngine.Cursor.UpdateHoverState | components/GPUCursor.tsx:315-339 | inside the padded bounds the latch is kept unchanged; otherwise the front-most interactive element is latched with its box and centre, or the hover is cleared; nothing else changes |
| CursorEngine.Cursor.PointerMove | components/GPUCursor.tsx:475-479 | the target becomes the pointer position; inside the padded bounds of the latched element the hover state is kept, otherwise the front-most interactive hit is latched with its box and centre, or the latch is cleared when there is none; positions, velocity, speed, scales and colour are untouched |
| CursorEngine.Cursor.Animate | components/GPUCursor.tsx:485-570 | one frame: velocity is the target's displacement, the mode follows NextDarkMode of the sample under the dot, the colour scalar takes one ColorStep, dot and ring lerp toward EffectiveTarget at 0.22 and RingLerp(speed), scales lerp toward their targets, the hover latch is untouched, and the cursor invariant holds |
| CursorEngine.Cursor.UpdateColor | components/GPUCursor.tsx:500-521 | the mode becomes NextDarkMode of the sample and the scalar one ColorStep toward it, staying in [0, 1] |
| CursorEngine.Cursor.UpdatePositions | components/GPUCursor.tsx:527-554 | dot and ring move by one lerp toward the effective target, with the dot's and the speed-dependent ring factor |
| CursorEngine.Cursor.UpdateScales | components/GPUCursor.tsx:560-570 | both scales lerp toward their targets and stay in their ranges |
| CursorEngine.ColorStepInUnit | components/GPUCursor.tsx:515-521 | the inline lerp toward 1 or 0 is ColorStep and stays in [0, 1] |
| VideoController.PausedBy | lib/videoController.ts:5-8 | playExclusive pauses at most one video: the registered one, and only when it is not the video being started |
| VideoController.AfterClear | lib/videoController.ts:12-16 | clearVideo empties the slot exactly when it holds that video and otherwise leaves it alone |
| VideoController.Registry.constructor | lib/videoController.ts:3 | the slot starts empty and nothing has been paused |
| VideoController.Registry.PlayExclusive | lib/videoController.ts:5-10 | the started video holds the slot, and the pause log grows by exactly PausedBy of the old slot |
| VideoController.Registry.ClearVideo | lib/videoController.ts:12-16 | the slot becomes AfterClear of the old one, and no pause is issued |
| VideoController.Slot | lib/videoController.ts:3 | the slot holds at most one video |
| VideoController.Step | lib/videoController.ts:5-16 | a play event puts the video in the slot and plays it, pausing and logging the different video that held the slot; a pause or ended event stops the video, takes it out of the slot and pauses nothing; no other video starts playing |
| VideoController.StepIdempotent | lib/videoController.ts:5-16 | repeating a play, pause or ended event changes nothing and issues no second pause |
| VideoController.StepKeepsExclusive | lib/videoController.ts:5-16 | if only the registered video plays before an event, the same holds after it |
| VideoController.AtMostOneVideoPlays | lib/videoController.ts:5-16 | over any sequence of events, at most one video plays, and it is the registered one |
| VideoController.HandOverScenario | lib/videoController.ts:5-16 | play A, play B, stop B, play C: only A is ever paused, and C ends in the slot |
| UploadRoute.Admit | app/api/upload/route.ts:21-31 | a missing bucket, or one older than 60000 ms, restarts at count 1 and allows; a full bucket (30) in its window denies and is kept; otherwise the count rises by one and the request is allowed |
| UploadRoute.AdmitKeepsRange | app/api/upload/route.ts:21-31 | a stored count always lies in [1, 30] |
| UploadRoute.WindowCap | app/api/upload/route.ts:24-30 | within one window, a bucket at count c lets at most 30 - c further requests through, however many arrive |
| UploadRoute.AtMostThirtyPerWindow | app/api/upload/route.ts:6-7 | of the requests from one IP in the 60000 ms after its first, at most 30 are allowed |
| UploadRoute.WindowBoundary | app/api/upload/route.ts:24 | the window includes its end: exactly 60000 ms later a full bucket still denies; 1 ms later it resets |
| UploadRoute.GetIp | app/api/upload/route.ts:13-19 | the address is never empty; it is the trimmed first x-forwarded-for entry (with no comma and no outer white space) when that is non-empty, else a non-empty req.ip, else "unknown" |
| UploadRoute.TrimKeepsOut | app/api/upload/route.ts:15 | trimming the first entry never brings in a comma |
| UploadRoute.ValidateBody | app/api/upload/route.ts:33-43 | GET is never checked; a missing or non-JSON content type gives "Invalid content type"; a malformed, null or scalar body "Invalid JSON body"; an array "Invalid payload"; exactly an object is accepted, unchanged |
| UploadRoute.Limiter.constructor | app/api/upload/route.ts:8-9 | the bucket map starts empty |
| UploadRoute.Limiter.RateLimit | app/api/upload/route.ts:21-31 | the verdict and ip's new bucket are Admit's; no other IP's bucket changes, and every count stays in [1, 30] |
| UploadRoute.Limiter.Get | app/api/upload/route.ts:45-51 | 429 "Rate limit exceeded" when the client's bucket denies, else 200; the bucket is updated as Admit says |
| UploadRoute.Limiter.Post | app/api/upload/route.ts:53-63 | the rate limit is checked first (429); then a rejected body gives 400 with its message; otherwise 200 |
| UploadRoute.Put | app/api/upload/route.ts:65-67 | PUT always answers 405 with the error "Method Not Allowed" |
| UploadRoute.Delete | app/api/upload/route.ts:69-71 | DELETE always answers 405 with the error "Method Not Allowed" |
| SwipeGallery.DragOpacity | components/hooks/useSwipeGallery.ts:49 | the preview opacity lies in [0.6, 1], is 1 exactly when there is no vertical offset, falls by 1/300 per pixel and bottoms out at 0.6 from 120 px |
| SwipeGallery.DragOpacityFades | components/hooks/useSwipeGallery.ts:49 | a longer vertical drag never makes the preview more opaque |
| SwipeGallery.GestureOutcome | components/hooks/useSwipeGallery.ts:75-95 | close exactly on a vertical-dominant drag beyond 120 px, downward iff dy > 0; next exactly on a leftward horizontal-dominant drag beyond 80 px that is not on the last item; previous exactly on a rightward one that is not on the first; a page turn is one step and stays in range; equal offsets snap back |
| SwipeGallery.SwipeBackUndoes | components/hooks/useSwipeGallery.ts:82-91 | the mirrored swipe from the new index returns to the old one |
| SwipeGallery.Gallery.constructor | components/hooks/useSwipeGallery.ts:20-24 | refs at 0 and not dragging; the element's style untouched at full opacity |
| SwipeGallery.Gallery.TouchStart | components/hooks/useSwipeGallery.ts:27-34 | the start point is recorded, both deltas are zeroed and dragging begins; the style is untouched |
| SwipeGallery.Gallery.TouchMove | components/hooks/useSwipeGallery.ts:36-54 | nothing changes unless dragging; otherwise the deltas are taken from the start point, and the preview follows the dominant axis, fading (DragOpacity) only on a vertical drag |
| SwipeGallery.Gallery.Reset | components/hooks/useSwipeGallery.ts:65-73 | the element goes back to the origin at full opacity |
| SwipeGallery.Gallery.TouchEnd | components/hooks/useSwipeGallery.ts:56-96 | nothing happens unless dragging; otherwise dragging stops and the gesture's GestureOutcome is reported; a close leaves the preview where it is, and any other outcome resets it |
| SwipeNavigation.SwipePushes | hooks/useSwipeNavigation.ts:26-44 | at most one push; a gesture that is too slow, shorter than 60 px or not 1.2 times wider than tall pushes nothing; otherwise a rightward swipe pushes prevHref and a leftward one nextHref, exactly when that href is non-empty |
| SwipeNavigation.LooserLimitKeepsPush | hooks/useSwipeNavigation.ts:33 | a gesture that navigates under a tighter time limit navigates the same way under a looser one |
| SwipeNavigation.HookLimitInclusive | hooks/useSwipeNavigation.ts:33 | the 500 ms limit is inclusive: at 500 ms the swipe navigates, at 501 ms it does not |
| SwipeNavigation.SwipeNavigator.constructor | hooks/useSwipeNavigation.ts:14-16 | the refs start at 0, nothing has been pushed, and the hrefs are the options given |
| SwipeNavigation.SwipeNavigator.TouchStart | hooks/useSwipeNavigation.ts:19-24 | the touch point and time are recorded; nothing is pushed |
| SwipeNavigation.SwipeNavigator.TouchEnd | hooks/useSwipeNavigation.ts:26-44 | the router receives exactly SwipePushes of the gesture with the 500 ms limit, so at most one push; the refs are unchanged |
| ProjectSwipeShell.ShellStricterThanHook | components/ProjectSwipeShell.tsx:33-52 | every push the shell makes the hook makes too, and a gesture of 401-500 ms navigates only in the hook |
| ProjectSwipeShell.SlowSwipeOnlyHookNavigates | components/ProjectSwipeShell.tsx:40 | a 450 ms swipe is pushed by the hook and dropped by the shell |
| ProjectSwipeShell.Shell.constructor | components/ProjectSwipeShell.tsx:17-19 | the refs start at 0 and nothing has been pushed |
| ProjectSwipeShell.Shell.TouchStart | components/ProjectSwipeShell.tsx:27-32 | the touch point and time are recorded; nothing is pushed |
| ProjectSwipeShell.Shell.TouchEnd | components/ProjectSwipeShell.tsx:33-52 | the router receives exactly SwipePushes of the gesture with the 400 ms limit; the refs are unchanged |
| SwipeScrub.Video.constructor | components/hooks/useSwipeScrubVideo.ts:5-6 | a video element with its duration and paused state, at time 0, with no play() calls yet |
| SwipeScrub.Video.Pause | components/hooks/useSwipeScrubVideo.ts:24 | pause() leaves the video paused and changes nothing else |
| SwipeScrub.Video.Play | components/hooks/useSwipeScrubVideo.ts:53 | play() starts playback and counts one call; time and duration are kept |
| SwipeScrub.ScrubTime | components/hooks/useSwipeScrubVideo.ts:33-45 | the scrub position always lies in [0, duration]; no drag keeps the start time; inside the range it is the start time moved by dx/120 of the duration; past the end it is the duration and before the start it is 0 |
| SwipeScrub.ScrubMonotone | components/hooks/useSwipeScrubVideo.ts:35-45 | dragging further right never moves the position earlier |
| SwipeScrub.FullDragReachesEnds | components/hooks/useSwipeScrubVideo.ts:35-36 | a 120 px drag to the left reaches the start, and one to the right reaches the end |
| SwipeScrub.Scrubber.constructor | components/hooks/useSwipeScrubVideo.ts:8-10 | the refs start at 0 and not playing, and the video ref is the one given |
| SwipeScrub.Scrubber.TouchStart | components/hooks/useSwipeScrubVideo.ts:13-25 | without a video nothing changes; otherwise the touch, the current time and whether it was playing are recorded, and the video is paused |
| SwipeScrub.Scrubber.TouchMove | components/hooks/useSwipeScrubVideo.ts:27-46 | the video seeks to ScrubTime of the drag so far, and play state and duration are kept |
| SwipeScrub.Scrubber.TouchEnd | components/hooks/useSwipeScrubVideo.ts:48-55 | playback resumes, with exactly one play() call, exactly when the video was playing at touch start; otherwise it stays as it is |
| EditorialPlayer.Trunc | components/EditorialVideoPlayer.tsx:20 | Math.trunc rounds toward zero: the floor for non-negative x, minus the floor of -x otherwise (the basis of JavaScript's `%`) |
| EditorialPlayer.JsRem | components/EditorialVideoPlayer.tsx:20 | JavaScript's % with a positive divisor n: the remainder of a non-negative x lies in [0, n), of a non-positive x in (-n, 0] |
| EditorialPlayer.Minutes | components/EditorialVideoPlayer.tsx:19 | Math.floor(s / 60) is the m with m·60 <= s < m·60 + 60 |
| EditorialPlayer.Seconds | components/EditorialVideoPlayer.tsx:20 | Math.floor(s % 60) of a non-negative time lies in [0, 59] |
| EditorialPlayer.FormatTime | components/EditorialVideoPlayer.tsx:17-22 | 0, NaN and ±Infinity all format as "0:00" |
| EditorialPlayer.MinutesAndSeconds | components/EditorialVideoPlayer.tsx:19-20 | for non-negative s the minutes are non-negative, the seconds lie in [0, 59], and minutes * 60 + seconds is the whole seconds of s |
| EditorialPlayer.MinutesColonSecondsDigits | components/EditorialVideoPlayer.tsx:21 | with non-negative parts the text is the decimal minutes, a colon and exactly two digits |
| EditorialPlayer.FormatTimeShape | components/EditorialVideoPlayer.tsx:17-22 | a positive time formats as "m:ss": decimal minutes, a colon, and two digits of seconds below 60 |
| EditorialPlayer.ReadMinutes | components/EditorialVideoPlayer.tsx:21 | two digit strings joined by a colon split back into two parts that parse to the same numbers |
| EditorialPlayer.FormatTimeRoundTrip | components/EditorialVideoPlayer.tsx:17-22 | reading "m:ss" back as m * 60 + ss gives the whole seconds of any positive time |
| EditorialPlayer.IndexLabel | components/EditorialVideoPlayer.tsx:165-166 | the label has at least two digits: a leading 0 before a single digit, the plain decimal from 10 up |
| EditorialPlayer.IndexLabelParses | components/EditorialVideoPlayer.tsx:165-166 | a label reads back as its number |
| EditorialPlayer.ShowOverlay | components/EditorialVideoPlayer.tsx:162 | on touch devices the overlay follows the tap toggle; elsewhere it follows hover |
| EditorialPlayer.ProgressInRange | components/EditorialVideoPlayer.tsx:82-87 | while the playhead lies within a positive duration, progress lies in [0, 100] percent |
| EditorialPlayer.Player.constructor | components/EditorialVideoPlayer.tsx:38-45 | the initial state: not hovered, playing, muted, progress and times 0, overlay hidden, not a touch device; the element is muted and paused, with no duration yet |
| EditorialPlayer.Player.DetectTouch | components/EditorialVideoPlayer.tsx:56 | the touch flag becomes the detection result; every other field of the state and of the element is unchanged |
| EditorialPlayer.Player.UpdateProgress | components/EditorialVideoPlayer.tsx:82-87 | with a NaN or zero duration nothing changes; with a finite non-zero one progress is currentTime/duration in percent and the time is copied; with an infinite one progress is 0; every other field of the state and of the element is unchanged |
| EditorialPlayer.Player.UpdateDuration | components/EditorialVideoPlayer.tsx:89-93 | only a finite, non-zero duration is taken; otherwise the state keeps its duration; every other field of the state and of the element is unchanged |
| EditorialPlayer.Player.PlayPause | components/EditorialVideoPlayer.tsx:124-133 | a paused element is played and a playing one paused; muted and isPlaying are untouched until the element's events arrive; every other field of the state and of the element is unchanged |
| EditorialPlayer.Player.OnPlayEvent | components/EditorialVideoPlayer.tsx:111 | the play event sets isPlaying; every other field of the state and of the element is unchanged |
| EditorialPlayer.Player.OnPauseEvent | components/EditorialVideoPlayer.tsx:112 | the pause event clears isPlaying; every other field of the state and of the element is unchanged |
| EditorialPlayer.Player.MuteToggle | components/EditorialVideoPlayer.tsx:136-142 | the element's muted flag flips and isMuted mirrors it; every other field of the state and of the element is unchanged |
| EditorialPlayer.Player.ContainerClick | components/EditorialVideoPlayer.tsx:145-159 | the overlay flips exactly on a touch device and off a control button; otherwise it stays; every other field of the state and of the element is unchanged |
| EditorialPlayer.Player.MouseEnter | components/EditorialVideoPlayer.tsx:172 | on a non-touch device hover becomes true; on a touch device nothing changes; every other field of the state and of the element is unchanged |
| EditorialPlayer.Player.MouseLeave | components/EditorialVideoPlayer.tsx:173 | on a non-touch device hover becomes false; on a touch device nothing changes; every other field of the state and of the element is unchanged |
| EditorialPlayer.Player.Overlay | components/EditorialVideoPlayer.tsx:162 | the overlay of the current state is ShowOverlay of its flags |
| AvailabilityStatus.Field | components/AvailabilityStatus.tsx:6-8 | a clock field is all digits, at least two of them, exactly two below 100, and holds no colon |
| AvailabilityStatus.FormatClock | components/AvailabilityStatus.tsx:5-10 | the clock text has at least eight characters; with every field below 100 it has exactly eight, with colons at positions 2 and 5 |
| AvailabilityStatus.ClockShape | components/AvailabilityStatus.tsx:5-10 | for a time of day the clock text has eight characters: digits with colons at positions 2 and 5 |
| AvailabilityStatus.FieldParses | components/AvailabilityStatus.tsx:6-8 | a padded field reads back as its number |
| AvailabilityStatus.ClockRoundTrip | components/AvailabilityStatus.tsx:5-10 | splitting the clock text on ':' gives three digit fields that parse back to the hours, minutes and seconds |
| Projects.SlugsOf | lib/projects.ts:180 | map over slugs: one slug per project, in list order |
| Projects.FindBySlug | lib/projects.ts:184 | find over slugs: undefined exactly when no project carries the slug; otherwise a listed project with that exact slug |
| Projects.FindIsFirst | lib/projects.ts:184 | find returns the first project carrying the slug |
| Projects.GetProjectSlugs | lib/projects.ts:179-181 | the slugs of the five table entries, in table order (lines 3-177) |
| Projects.GetProjectBySlug | lib/projects.ts:183-185 | a hit is a table project with that exact slug; undefined exactly when the slug is not in the slug list |
| Projects.FindListed | lib/projects.ts:184 | in a list with distinct slugs, looking up a listed project's slug finds that project |
| Projects.TableSlugsDistinct | lib/projects.ts:3-177 | the five slugs of the table are pairwise distinct |
| Projects.EverySlugResolves | lib/projects.ts:179-185 | every slug getProjectSlugs lists looks up the project that carries it |
| Projects.LookupIsCaseSensitive | lib/projects.ts:184 | the comparison is exact: "Feather-Journey" is found and "feather-journey" is not |
| ProjectSource.Published | lib/project-source.ts:10 | a project is kept exactly when its status is missing or is not "draft"; a project without a status is always kept |
| ProjectSource.PublishedOf | lib/project-source.ts:10 | the filter never lengthens the list and keeps no draft |
| ProjectSource.PublishedOfMembers | lib/project-source.ts:10 | a project survives the filter exactly when it is in the list and its status is not "draft" |
| ProjectSource.PublishedOfConcat | lib/project-source.ts:10 | the filter distributes over concatenation, so it keeps the list's order |
| ProjectSource.NoDraftsKept | lib/project-source.ts:10 | a list without drafts passes the filter unchanged |
| ProjectSource.GetAllProjects | lib/project-source.ts:9-11 | a project is listed exactly when it is in the table and not a draft |
| ProjectSource.AllProjectsListed | lib/project-source.ts:9-11 | no table entry sets a status, so all five are listed, in table order |
| ProjectSource.GetProjectBySlugOrNull | lib/project-source.ts:13-17 | a hit is a table project with that exact slug; null exactly when no table project carries it |
| ProjectSource.DraftStillRetrievable | lib/project-source.ts:16 | the slug lookup ignores status: a draft that first carries its slug is still found |
| ProjectSource.DraftFiltered | lib/project-source.ts:10 | a draft is never listed |
| ProjectSource.LookupsAgree | lib/project-source.ts:13-17 | the null-returning lookup and the undefined-returning one in lib/projects.ts always agree |
| R2.MissingSettings | lib/r2.ts:18-21 | at most four names; none exactly when all four variables are set and non-empty; a setting is listed exactly when its variable is unset or empty |
| R2.MissingInCheckOrder | lib/r2.ts:18-21 | the missing settings are listed in the order they are checked, each once |
| R2.VarNames | lib/r2.ts:18-21 | one environment-variable name per setting, in order |
| R2.ValidateR2Env | lib/r2.ts:11-30 | throws exactly when a variable is unset or empty, with "Missing R2 environment variables: " and the missing names joined by ", "; otherwise returns the four values |
| R2.MessageNamesEachMissing | lib/r2.ts:23-26 | every unset or empty variable is named in the thrown message |
| R2.MissingMessage | lib/r2.ts:24-26 | the error text starts with "Missing R2 environment variables: " and is only that prefix when nothing is missing |
| R2.NothingSetListsAll | lib/r2.ts:18-21 | with nothing set, all four names are listed, in check order |
| R2.EmptyIsMissing | lib/r2.ts:21 | an empty R2_BUCKET_NAME is reported exactly like an unset one |
| R2.NewClient | lib/r2.ts:39-47 | the client uses region "auto", path-style addressing, the account's storage endpoint and the env's credentials |
| R2.PublicUrl | lib/r2.ts:56 | the URL starts with "https://" and ends with the key |
| R2.PublicUrlParts | lib/r2.ts:56 | a public URL starts with "https://"; the text up to the first '/' is the bucket as a subdomain of the account's storage host; everything after it is the key |
| R2.Store.constructor | lib/r2.ts:32-33 | no client and no cached env at start |
| R2.Store.GetR2Client | lib/r2.ts:35-50 | a cached client and its env are returned unchanged, whatever process.env now holds; otherwise a failed validation throws and caches nothing, and a successful one caches and returns the new client with its env |
| R2.Store.ToPublicUrl | lib/r2.ts:52-57 | an override env builds the URL and leaves the cache alone; otherwise the env comes from getR2Client, whose error propagates |
| Middleware.IsDev | middleware.ts:4 | development mode is anything except NODE_ENV === "production", an unset NODE_ENV included |
| Middleware.Directives | middleware.ts:6-18 | twelve directives; the second is script-src 'self' 'unsafe-inline', followed by 'unsafe-eval' in development only |
| Middleware.Csp | middleware.ts:6-19 | every one of the twelve directives appears in the joined policy |
| Middleware.OnlyScriptSrcDiffers | middleware.ts:6-18 | all directives except script-src are the same in both modes |
| Middleware.UnsafeEvalOnlyInDev | middleware.ts:8 | the policy allows 'unsafe-eval' exactly in development |
| Middleware.DevAllowsEval | middleware.ts:8 | the development policy contains 'unsafe-eval' |
| Middleware.ProductionForbidsEval | middleware.ts:6-19 | the production policy does not contain 'unsafe-eval' |
| Middleware.ProductionDirectivesLackV | middleware.ts:6-18 | no production directive contains the letter 'v', which 'unsafe-eval' does |
| Middleware.SecurityHeaders | middleware.ts:37-43 | exactly the seven header names are set; the CSP header carries the policy; X-Frame-Options is DENY and X-Content-Type-Options is nosniff |
| Middleware.ShouldRedirect | middleware.ts:25-29 | only a request that arrived as plain HTTP is redirected, and never one whose host is exactly localhost or 127.0.0.1 |
| Middleware.HandleRequest | middleware.ts:21-46 | a redirect exactly when x-forwarded-proto is "http" and the host starts with neither "localhost" nor "127.0.0.1"; the redirect is a 308 to the same URL with protocol "https:"; every other response carries exactly the security headers |
| Middleware.SecureOrUnknownProtoPasses | middleware.ts:23-26 | a missing or "https" forwarded protocol never redirects |
| Middleware.MissingHostRedirects | middleware.ts:22 | a missing host header counts as "" and is redirected under plain HTTP |
| Middleware.LocalPrefixExempt | middleware.ts:27-28 | the local exemption is a prefix test: any host beginning with "localhost" or "127.0.0.1" passes over plain HTTP |
| Middleware.RedirectSettles | middleware.ts:30-32 | the https request a redirect leads to is not redirected again, and keeps host, path and query |
| Text.NatToString | components/AvailabilityStatus.tsx:6 | String(n) of a natural number: at least one digit, one digit exactly below 10, and no leading zero from 10 up |
| Text.IntToString | components/EditorialVideoPlayer.tsx:21 | String(i): the decimal of a non-negative integer, or "-" and the decimal of its magnitude |
| Text.ParseNatToString | components/AvailabilityStatus.tsx:6 | String(n) reads back as n |
| Text.PadStart | components/EditorialVideoPlayer.tsx:21 | padStart keeps the string as the suffix, fills only the front with the fill character, and reaches the target length unless the string is already longer |
| Text.ParsePadded | components/AvailabilityStatus.tsx:6-8 | String(n).padStart(2, "0") is all digits, exactly two of them below 100, and reads back as n |
| Text.Join | lib/r2.ts:25 | joining a single part gives that part |
| Text.JoinContains | middleware.ts:6-19 | every part appears in the joined string |
| Text.JoinExcludes | middleware.ts:6-19 | a character in neither the parts nor the separator is not in the joined string |
| Text.Before | app/api/upload/route.ts:15 | the text before the first separator: a prefix without the separator, followed by the separator unless it is the whole string |
| Text.Split | app/api/upload/route.ts:15 | split gives at least one part, the first is the text before the first separator, and no part holds the separator |
| Text.TrimStart | app/api/upload/route.ts:15 | removes exactly the leading white space: the result is a suffix that starts with no white space |
| Text.TrimEnd | app/api/upload/route.ts:15 | removes exactly the trailing white space: the result is a prefix that ends with no white space |
| Text.Trim | app/api/upload/route.ts:15 | trim gives a substring, with only white space around it in the input, that neither starts nor ends with white space |
| Text.TrimSpan | app/api/upload/route.ts:15 | trimming the start and then the end leaves the substring at the offset of the first non-space character |

## Left out

- Style writes, `formatRGBA` strings, `requestAnimationFrame` and listener registration in `components/GPUCursor.tsx` are not modelled. One call of `Animate` is one frame.
- The `(hover: hover) and (pointer: fine)` media query that disables the cursor on touch devices is not modelled.
- The offscreen canvas's `drawImage`/`getImageData` are not modelled, and neither is the source-rectangle arithmetic that places the 5x5 sample. The read-back is an input byte sequence or a failure, which covers the `catch`.
- The browser calls are replaced by their answers, taken as inputs: `elementsFromPoint`, `getComputedStyle`, `matches`/`closest` and `getBoundingClientRect`.
- The background-colour regular expressions are replaced by a datatype of what they match: `rgb(...)`, `rgba(...)` or neither. The string parsing itself is not modelled.
- `Math.hypot` is not computed. Speed and distance are inputs constrained by `IsDistance` (a non-negative number whose square is the sum of squared differences).
- Numbers are `real`: IEEE rounding, NaN and overflow are not modelled. The exception is the editorial player, where a duration may be NaN or Infinity, as `Num` says.
- Concurrency is not modelled: pointer events interleaving with frames, and concurrent requests against the global rate-limit map. Both are modelled sequentially.
- `Date.now`, `process.env`, `NODE_ENV`, request headers and `req.ip` are parameters.
- The JSON body of an upload request is reduced to its top-level kind (`Body`). That kind is all that validateBody and the passthrough object schema look at.
- `NextResponse` objects are reduced to a status and an error message (upload route), or to a redirect or a header map (middleware).
- The middleware's `config.matcher` path filter is not modelled: it is routing configuration applied by the framework.
- S3Client internals are not modelled. A client is the record of the settings it is constructed with.
- The React hook and state machinery is not modelled. Refs and state become class fields, and a `setX` call becomes an assignment.
- The gallery's 260 ms timer that clears the CSS transition is not modelled.
- The editorial player's autoplay on mount, the reduced-motion media query and `hasMounted` are not modelled.
- The clock in `components/AvailabilityStatus.tsx` is not modelled: its `Date`, its one-second interval and the initial "00:00:00" state. The three clock fields are parameters.
- The `play()` promise's rejection is swallowed by the source; `SwipeScrub.Video.Play` treats every call as starting playback.
- Fields of `lib/project-types.ts` that the table never sets are omitted from `Projects.Project`: category, tags, editorial, dates and seo. The async wrappers of `lib/project-source.ts` are dropped.
- `R2.Setting` names the four required variables, and `R2.VarName` maps each to its `R2_...` string. The environment is a record of the four values, not a map from arbitrary names.
- Middleware.SecurityHeaders: its contract fixes the header names and the values of Content-Security-Policy, X-Frame-Options and X-Content-Type-Options. The other four values are those of its body, and `Middleware.HandleRequest` returns exactly that map.
- EditorialPlayer.FormatTime: its contract covers the "0:00" cases. The shape and the round trip for positive times are stated by `EditorialPlayer.FormatTimeShape` and `EditorialPlayer.FormatTimeRoundTrip`. Negative finite times, which a media element does not report, have no lemma.
- CursorEngine.Cursor.Animate does not compute `interpolateColor` of the new scalar: that is `CursorColor.InterpolateColor`, and its output only feeds the style writes.
- EditorialPlayer.IndexLabel: modelled for non-negative integers only. The props `currentIndex` and `totalCount` are JavaScript numbers, so a caller could pass a negative or fractional value; `String` of those ("-3", "7.5") is not modelled.
