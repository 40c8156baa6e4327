# LostArkFarmer in Dafny

LostArkFarmer is a console program for the game Lost Ark. It plays a skill
script on a virtual Xbox 360 controller. After every round it walks the
character back to an origin, which it marks by finding the green map arrow in
a screenshot. Hotkeys F7 to F10 toggle the overlay, set or clear the origin,
and start or stop the script. At start-up it checks GitHub for a newer release.

This project models the decision logic of those parts, with one module per
source file:

- `VisualPosition` (visual_position.dfy) models `VisualPositionService`:
  - the region of interest and the contour selection loop;
  - the single origin slot;
  - the correction rule: a 10 px dead zone, and a strength of
    max(min(d/200, 1), 0.75) times 32767, truncated to short.
- `VirtualController` (virtual_controller.dfy) models `VirtualControllerService`:
  - key normalisation;
  - the key-to-control mapping;
  - `SendInput`, `ResetAllInputs` and `Dispose`;
  - the controller is modelled as a record of axes, triggers and pressed buttons.
- `Hotkeys` (hotkeys.dfy) models `InputListener`: the per-key "was down"
  flags and the key-up edge detector `CheckKey`.
- `Update` (update_service.dfy) models `UpdateService`:
  - `ShouldUpdate` and a parser/printer pair for `Version`;
  - asset selection and the prompt;
  - the counted polling of `WaitForInput`;
  - `DrawProgressBar` and the download loop.
- `Farmer` (farmer.dfy) models `Program`:
  - the skill-step press/hold/release loop, as a trace of actions replayed on
    the controller;
  - the return-to-origin loop, over a sequence of observed ticks;
  - the F7 to F10 handlers;
  - `CaptureAndSetOrigin`;
  - one run of the script, from start to stop.
- `Text` (text.dfy) has .NET's `Trim` (Unicode white space) and an upper-casing
  of ASCII letters. `Wrappers` (wrappers.dfy) has `Option`.

Outside effects become parameters:
- The window handle is an int. A capture is an `Option<Frame>`.
- The clock and the cancellation token are the fields of each `Tick`.
- `Console.KeyAvailable` is a function from poll number to bool.
- The GitHub response is an `Option<Release>`.
- `Math.Sqrt` is a function argument `sqrt` satisfying `IsSqrt`.

## Model

| member | source | states |
|---|---|---|
| VisualPosition.RegionOfInterest | LostArk_Farmer/LostArk_Farmer/Services/VisualPositionService.cs:110-121 | The region always lies inside the frame. For a non-empty frame its x is floor(0.2 W) and its y is floor(0.15 H), with equal margins on both sides and a positive size. For an empty frame it is the whole frame. |
| VisualPosition.Winner | LostArk_Farmer/LostArk_Farmer/Services/VisualPositionService.cs:143-155 | The kept contour is the first one of largest area above 30: later contours are at most as large and earlier ones strictly smaller. Nothing is kept exactly when no contour is above 30. |
| VisualPosition.WinnerStep | LostArk_Farmer/LostArk_Farmer/Services/VisualPositionService.cs:145-155 | One loop iteration: a contour replaces the kept one exactly when its area is above 30 and strictly above the running maximum. The maximum starts at 0. |
| VisualPosition.FirstLargestUnique | LostArk_Farmer/LostArk_Farmer/Services/VisualPositionService.cs:145-155 | There is only one "first largest" contour, so the choice among equal areas is determined. |
| VisualPosition.EqualAreaKeepsFirst | LostArk_Farmer/LostArk_Farmer/Services/VisualPositionService.cs:148 | When a later contour has the same area as the kept one, the earlier one stays. |
| VisualPosition.TruncateToInt | LostArk_Farmer/LostArk_Farmer/Services/VisualPositionService.cs:159 | C#'s (int) cast of a floating value truncates toward zero, for either sign. |
| VisualPosition.Locate | LostArk_Farmer/LostArk_Farmer/Services/VisualPositionService.cs:139-160 | A centre is reported exactly when some contour has area above 30. The centre and box are those of the first largest contour, shifted by the region's origin, with the centre truncated. With no centre the box is (0,0,0,0). |
| VisualPosition.LocateMarker | LostArk_Farmer/LostArk_Farmer/Services/VisualPositionService.cs:139-160 | The loop over the contours, then the `maxArea > 0` test, computes exactly `Locate`. |
| VisualPosition.KeepLargest | LostArk_Farmer/LostArk_Farmer/Services/VisualPositionService.cs:139-155 | After the foreach, `maxArea > 0` exactly when a contour was kept. That contour is `Winner`, and the centre and box are the winner's, the box shifted into the frame. |
| VisualPosition.Strength | LostArk_Farmer/LostArk_Farmer/Services/VisualPositionService.cs:97-98 | The strength lies in [0.75·32767, 32767]. It is flat at 0.75·32767 up to distance 150, is d/200·32767 between 150 and 200, and is full from 200. |
| VisualPosition.StrengthMonotone | LostArk_Farmer/LostArk_Farmer/Services/VisualPositionService.cs:97-98 | Strength never decreases with distance. |
| VisualPosition.StickFor | LostArk_Farmer/LostArk_Farmer/Services/VisualPositionService.cs:91-101 | Outside the dead zone each stick component is its share of the distance times `Strength`, truncated toward zero: x truncates dx/d·Strength(d) and y truncates −dy/d·Strength(d). Each lies within ±32767, x follows the sign of dx and y the sign of −dy (screen y grows downward), and at least one is non-zero. |
| VisualPosition.StickFacts | LostArk_Farmer/LostArk_Farmer/Services/VisualPositionService.cs:97-101 | The two truncated components at the strength for the distance are within range, follow their offsets' signs, are not both zero and are `Scaled`. |
| VisualPosition.ComponentsScaled | LostArk_Farmer/LostArk_Farmer/Services/VisualPositionService.cs:97-101 | Each component truncates toward zero the offset's share of the distance times the strength for that distance. |
| VisualPosition.ComponentFacts | LostArk_Farmer/LostArk_Farmer/Services/VisualPositionService.cs:100-101 | Both truncated components are within range and follow their offsets' signs, and they are not both zero. |
| VisualPosition.StickNotNeutral | LostArk_Farmer/LostArk_Farmer/Services/VisualPositionService.cs:100-101 | At strength at least 0.75·32767, the longer leg's component truncates to a non-zero value. |
| VisualPosition.CorrectionFor | LostArk_Farmer/LostArk_Farmer/Services/VisualPositionService.cs:75-103 | The distance is the Euclidean distance. It is below 10 exactly when dx²+dy² < 100, and then the stick is (0,0). Otherwise each component truncates the offset's share of the distance times `Strength` (with y taken upward), so the stick is within range, not neutral, and points toward the origin in each axis. |
| VisualPosition.SquareRootBelow | LostArk_Farmer/LostArk_Farmer/Services/VisualPositionService.cs:81-89 | The dead-zone test `distance < 10` is the squared test `dx²+dy² < 100`. |
| VisualPosition.OriginRoundTrip | LostArk_Farmer/LostArk_Farmer/Services/VisualPositionService.cs:79-89 | Standing on the origin gives the correction (0,0,0). |
| VisualPosition.PositionTracker.constructor | LostArk_Farmer/LostArk_Farmer/Services/VisualPositionService.cs:45 | A new service has no origin. |
| VisualPosition.PositionTracker.SetCurrentAsTarget | LostArk_Farmer/LostArk_Farmer/Services/VisualPositionService.cs:55-64 | Returns true exactly when the arrow is found, and then stores its centre. Otherwise it returns false and keeps the old origin. |
| VisualPosition.PositionTracker.ResetTarget | LostArk_Farmer/LostArk_Farmer/Services/VisualPositionService.cs:66 | Afterwards no origin is set, whatever the state before, so resetting twice is the same as once. |
| VisualPosition.PositionTracker.CalculateCorrectionVector | LostArk_Farmer/LostArk_Farmer/Services/VisualPositionService.cs:68-104 | The result is (0,0,0) with no origin, and also when the arrow is not found. Otherwise it is `CorrectionFor(origin, centre)`. |
| VisualPosition.PositionTracker.GetDetectedRect | LostArk_Farmer/LostArk_Farmer/Services/VisualPositionService.cs:191-195 | Returns the frame-coordinate box of the located arrow, which is (0,0,0,0) when there is none. |
| Text.TrimStart | LostArk_Farmer/LostArk_Farmer/Services/VirtualControllerService.cs:46 | The result is a suffix of the input. It starts with a non-white-space character or is empty, and everything removed was white space. |
| Text.TrimEnd | LostArk_Farmer/LostArk_Farmer/Services/VirtualControllerService.cs:46 | The result is a prefix of the input. It ends with a non-white-space character or is empty, and everything removed was white space. |
| Text.Trim | LostArk_Farmer/LostArk_Farmer/Services/VirtualControllerService.cs:46 | The result is a prefix of what TrimStart leaves, and only white space follows it there. So it is the input with exactly its leading and trailing white space removed: it neither starts nor ends with white space, and it is empty exactly when the input is all white space. |
| Text.Lead | LostArk_Farmer/LostArk_Farmer/Services/VirtualControllerService.cs:46 | The count of leading white-space characters: everything before it is white space, and TrimStart leaves the input from that point on. |
| Text.TrimSpan | LostArk_Farmer/LostArk_Farmer/Services/VirtualControllerService.cs:46 | Trim's result is the input's run that starts after the leading white space, and only white space follows that run. |
| Text.ToUpper | LostArk_Farmer/LostArk_Farmer/Services/VirtualControllerService.cs:46 | The result has the same length as the input, each character upper-cased. |
| Text.TrimStartOfWhiteSpace | LostArk_Farmer/LostArk_Farmer/Services/VirtualControllerService.cs:46 | Leading white space does not change TrimStart. |
| Text.TrimEndOfWhiteSpace | LostArk_Farmer/LostArk_Farmer/Services/VirtualControllerService.cs:46 | Trailing white space does not change TrimEnd. |
| Text.TrimStartAppend | LostArk_Farmer/LostArk_Farmer/Services/VirtualControllerService.cs:46 | Trailing white space can be moved past TrimStart before TrimEnd removes it. |
| Text.TrimPadding | LostArk_Farmer/LostArk_Farmer/Services/VirtualControllerService.cs:46 | White space added on either side does not change Trim. |
| Text.ToUpperIdempotent | LostArk_Farmer/LostArk_Farmer/Services/VirtualControllerService.cs:46 | Upper-casing twice is upper-casing once. |
| Text.TrimUpper | LostArk_Farmer/LostArk_Farmer/Services/VirtualControllerService.cs:46 | Trim and ToUpper commute. |
| Text.TrimStartUpper | LostArk_Farmer/LostArk_Farmer/Services/VirtualControllerService.cs:46 | TrimStart and ToUpper commute. |
| Text.TrimEndUpper | LostArk_Farmer/LostArk_Farmer/Services/VirtualControllerService.cs:46 | TrimEnd and ToUpper commute. |
| Text.UpperKeepsWhiteSpace | LostArk_Farmer/LostArk_Farmer/Services/VirtualControllerService.cs:46 | Upper-casing a character never makes or removes white space. |
| Text.TrimIdempotent | LostArk_Farmer/LostArk_Farmer/Services/VirtualControllerService.cs:46 | Trimming twice is trimming once. |
| VirtualController.SetControl | LostArk_Farmer/LostArk_Farmer/Services/VirtualControllerService.cs:53-66 | Setting one control gives it the value (a button reads 1 for any non-zero value) and leaves every other control unchanged. |
| VirtualController.LookupButton | LostArk_Farmer/LostArk_Farmer/Services/VirtualControllerService.cs:15-22 | The dictionary finds a button exactly when some entry's name equals the key ignoring case, and the button found is the button of such an entry. |
| VirtualController.LookupFrom | LostArk_Farmer/LostArk_Farmer/Services/VirtualControllerService.cs:64-66 | The scan from entry i finds a button exactly when a later entry matches ignoring case, and the button it returns is that entry's. |
| VirtualController.NamesDistinct | LostArk_Farmer/LostArk_Farmer/Services/VirtualControllerService.cs:18-21 | No two dictionary names are equal ignoring case, as a dictionary with a case-insensitive comparer requires. |
| VirtualController.LookupFindsEntry | LostArk_Farmer/LostArk_Farmer/Services/VirtualControllerService.cs:15-22 | A key equal to an entry's name in any case finds exactly that entry's button. |
| VirtualController.LookupFromFindsEntry | LostArk_Farmer/LostArk_Farmer/Services/VirtualControllerService.cs:64-66 | The scan from any entry up to the matching one returns the matching entry's button. |
| VirtualController.Normalize | LostArk_Farmer/LostArk_Farmer/Services/VirtualControllerService.cs:46 | The normal form is no longer than the key, contains no lower-case ASCII letter, and is empty exactly when the key is blank. |
| VirtualController.NormalizeSpan | LostArk_Farmer/LostArk_Farmer/Services/VirtualControllerService.cs:46 | The normal form is the key's run after its leading white space, each character upper-cased, and only white space follows that run in the key. |
| VirtualController.Binding | LostArk_Farmer/LostArk_Farmer/Services/VirtualControllerService.cs:51-67 | The empty key binds nothing. A stick binding is LeftThumbX or LeftThumbY with press value 32767 or −32768, a trigger binding has press value 255, and a button binding has press value 1 and a button the dictionary names. |
| VirtualController.BindingMapped | LostArk_Farmer/LostArk_Farmer/Services/VirtualControllerService.cs:51-67 | A key drives a button only if the dictionary names that button. |
| VirtualController.KeyEffect | LostArk_Farmer/LostArk_Farmer/Services/VirtualControllerService.cs:43-70 | A blank or unknown key changes nothing. A bound key sets its one control to the press value (32767 or −32768 for the stick, 255 for a trigger, 1 for a button) or to 0 on release, and changes no other control. |
| VirtualController.Neutralized | LostArk_Farmer/LostArk_Farmer/Services/VirtualControllerService.cs:77-88 | Every axis and trigger is 0. A button is still pressed exactly when it was pressed and the dictionary does not name it. |
| VirtualController.ControllerService.constructor | LostArk_Farmer/LostArk_Farmer/Services/VirtualControllerService.cs:11-12 | A new service has no controller. |
| VirtualController.ControllerService.Initialize | LostArk_Farmer/LostArk_Farmer/Services/VirtualControllerService.cs:24-41 | With the driver present, the controller connects at rest. Without it, the call fails and the state is unchanged. |
| VirtualController.ControllerService.SendInput | LostArk_Farmer/LostArk_Farmer/Services/VirtualControllerService.cs:43-70 | With no controller nothing happens. Otherwise the pad becomes exactly `KeyEffect` of the old pad. |
| VirtualController.ControllerService.SetLeftStick | LostArk_Farmer/LostArk_Farmer/Program.cs:341 | Sets the two left-stick axes and nothing else. With no controller it does nothing. |
| VirtualController.ControllerService.ResetAllInputs | LostArk_Farmer/LostArk_Farmer/Services/VirtualControllerService.cs:72-93 | With no controller nothing happens. Otherwise the pad becomes `Neutralized` of the old pad: the sticks are centred, the triggers released and every dictionary button released. |
| VirtualController.ControllerService.ReleaseMappedButtons | LostArk_Farmer/LostArk_Farmer/Services/VirtualControllerService.cs:85-88 | The loop over the dictionary's values releases exactly the dictionary's buttons and leaves the rest of the pad unchanged. |
| VirtualController.ControllerService.Dispose | LostArk_Farmer/LostArk_Farmer/Services/VirtualControllerService.cs:95-108 | Afterwards there is no controller. |
| VirtualController.BlankKeyUnbound | LostArk_Farmer/LostArk_Farmer/Services/VirtualControllerService.cs:45 | A blank key normalises to the empty string, which binds nothing. So the early return for blank keys agrees with the lookup. |
| VirtualController.EmptyKeyUnbound | LostArk_Farmer/LostArk_Farmer/Services/VirtualControllerService.cs:51-67 | The empty key matches no case of the switch and no dictionary entry. |
| VirtualController.PaddingIgnored | LostArk_Farmer/LostArk_Farmer/Services/VirtualControllerService.cs:46 | White space around a key does not change its normal form. |
| VirtualController.CaseIgnored | LostArk_Farmer/LostArk_Farmer/Services/VirtualControllerService.cs:46 | Keys that are equal once upper-cased have the same normal form. |
| VirtualController.SameFormSameEffect | LostArk_Farmer/LostArk_Farmer/Services/VirtualControllerService.cs:43-70 | Two keys with the same normal form have the same effect on every pad, pressed or released. |
| VirtualController.PaddedKeysAlike | LostArk_Farmer/LostArk_Farmer/Services/VirtualControllerService.cs:43-70 | A key padded with white space has the same normal form and the same effect on every pad as the key in any case, so " up " and "UP" act alike. |
| VirtualController.NormalizeIdempotent | LostArk_Farmer/LostArk_Farmer/Services/VirtualControllerService.cs:46 | Normalising a normalised key changes nothing. |
| VirtualController.PressThenRelease | LostArk_Farmer/LostArk_Farmer/Services/VirtualControllerService.cs:53-66 | Pressing and then releasing a bound key leaves its control at 0 and every other control as it was. |
| VirtualController.NeutralizedRests | LostArk_Farmer/LostArk_Farmer/Services/VirtualControllerService.cs:72-93 | After a reset every dictionary button is up, a second reset changes nothing, and a pad holding only dictionary buttons is entirely at rest. |
| Hotkeys.IsDownNow | LostArk_Farmer/LostArk_Farmer/Services/InputListener.cs:57 | Bit 15 of the 16-bit key state is set exactly when the signed short is negative. |
| Hotkeys.EventsAppend | LostArk_Farmer/LostArk_Farmer/Services/InputListener.cs:54-74 | The events over two stretches of readings add up, with the flag carried across. |
| Hotkeys.RepeatedUpsSilent | LostArk_Farmer/LostArk_Farmer/Services/InputListener.cs:64-72 | After a firing, up readings raise no further event. |
| Hotkeys.HeldDownSilent | LostArk_Farmer/LostArk_Farmer/Services/InputListener.cs:59-63 | No event fires while the key is held down. |
| Hotkeys.OnePressOneEvent | LostArk_Farmer/LostArk_Farmer/Services/InputListener.cs:54-74 | A press followed by a release gives exactly one event, however long each lasts. |
| Hotkeys.BlocksCount | LostArk_Farmer/LostArk_Farmer/Services/InputListener.cs:54-74 | Each run of down readings followed by up readings gives one event, and afterwards the flag is clear. |
| Hotkeys.TraceEvents | LostArk_Farmer/LostArk_Farmer/Services/InputListener.cs:54-74 | Over a whole trace the event count equals the number of down runs followed by an up reading. Leading up readings and a trailing down run add none. |
| Hotkeys.InputListener.constructor | LostArk_Farmer/LostArk_Farmer/Services/InputListener.cs:26-29 | All four flags start false. |
| Hotkeys.InputListener.SetFlag | LostArk_Farmer/LostArk_Farmer/Services/InputListener.cs:26-29 | Each key has its own flag: setting one leaves the other three alone. |
| Hotkeys.InputListener.CheckKey | LostArk_Farmer/LostArk_Farmer/Services/InputListener.cs:54-74 | Fires exactly when the key is up now and was down. Afterwards the flag equals the current reading, and no other key's flag changes. |
| Hotkeys.InputListener.PollOnce | LostArk_Farmer/LostArk_Farmer/Services/InputListener.cs:37-40 | One round checks F7, F8, F9 and F10 in that order. Each key fires on its own down-to-up edge, and each flag becomes its key's reading. |
| Hotkeys.InputListener.Listen | LostArk_Farmer/LostArk_Farmer/Services/InputListener.cs:35-44 | Polling one key over a series of readings raises `Events` many events, leaves the flag at the last reading, and leaves the other keys' flags alone. |
| Update.TrimLeadingVs | LostArk_Farmer/LostArk_Farmer/Services/UpdateService.cs:79 | Removes the whole leading run of 'v'/'V' and nothing else. |
| Update.SplitOnDots | LostArk_Farmer/LostArk_Farmer/Services/UpdateService.cs:81-82 | There is at least one piece, and no piece contains a dot. |
| Update.ParseComponents | LostArk_Farmer/LostArk_Farmer/Services/UpdateService.cs:81-82 | Succeeds exactly when every piece is a number, and then gives each piece's value in order. |
| Update.ParseVersion | LostArk_Farmer/LostArk_Farmer/Services/UpdateService.cs:81-82 | A parsed version is well formed: 2 to 4 components in Int32 range, and a missing build implies a missing revision. |
| Update.ShowNumber | LostArk_Farmer/LostArk_Farmer/Services/UpdateService.cs:81-82 | A number prints as a non-empty string of digits. |
| Update.ShowNumbers | LostArk_Farmer/LostArk_Farmer/Services/UpdateService.cs:81-82 | Prints each component in order. |
| Update.Older | LostArk_Farmer/LostArk_Farmer/Services/UpdateService.cs:83 | A version is older only when it differs and its major is not larger, and it is always older when its major is smaller. |
| Update.ShouldUpdate | LostArk_Farmer/LostArk_Farmer/Services/UpdateService.cs:77-84 | An update is offered only when the trimmed tag and the running version both parse and the trimmed tag differs from the running version string. |
| Update.Find | LostArk_Farmer/LostArk_Farmer/Services/UpdateService.cs:94-95 | Returns the first asset whose name ends with the extension ignoring case, or none when no asset does. |
| Update.SelectAsset | LostArk_Farmer/LostArk_Farmer/Services/UpdateService.cs:94-95 | Returns the first .zip when there is one, wherever the .exe files are. Otherwise it returns the first .exe, and none when there is neither. |
| Update.PromptDecision | LostArk_Farmer/LostArk_Farmer/Services/UpdateService.cs:86-123 | No asset exactly when there is neither .zip nor .exe. A download happens exactly when there is an asset and the key pressed in time is Y, and it downloads the selected asset. |
| Update.PollCount | LostArk_Farmer/LostArk_Farmer/Services/UpdateService.cs:216-226 | A non-positive timeout gives no polls. Otherwise there are ⌈timeout/100⌉ polls. |
| Update.WaitForInput | LostArk_Farmer/LostArk_Farmer/Services/UpdateService.cs:216-226 | Returns true exactly when a key shows up within `PollCount` polls, and then at the first such poll. Otherwise it returns false after exactly `PollCount` polls. |
| Update.PromptUpdate | LostArk_Farmer/LostArk_Farmer/Services/UpdateService.cs:86-123 | Gives `PromptDecision`: without an asset it returns before waiting, and it downloads only on a Y pressed within 10 s. |
| Update.CheckForUpdates | LostArk_Farmer/LostArk_Farmer/Services/UpdateService.cs:31-75 | Returns true, which Main ignores, exactly when the request succeeded, the tag is newer and the prompt chose to download. A failed request gives false. |
| Update.Fill | LostArk_Farmer/LostArk_Farmer/Services/UpdateService.cs:211-212 | The fill is 40·current/total truncated toward zero: for current >= 0 the largest n with n·total <= 40·current, for current < 0 the smallest n with 40·current <= n·total. |
| Update.ProgressBar | LostArk_Farmer/LostArk_Farmer/Services/UpdateService.cs:207-214 | Writes nothing exactly when total <= 0. With total > 0 the string constructor throws (`Overrun`) exactly when the fill is outside 0..40, and it always draws for 0 <= current <= total. A drawn bar is 42 characters: '[', then position i in 1..40 is '#' exactly when i <= `Fill`, else '-', then ']'. |
| Update.DownloadProgress | LostArk_Farmer/LostArk_Farmer/Services/UpdateService.cs:143-151 | totalRead is the sum of the reads so far, and each read draws the bar for that running total. The loop stops early only at a bar whose fill is out of range. With a known size that the reads do not exceed, it runs to the end. |
| Update.LeadingVsIgnored | LostArk_Farmer/LostArk_Farmer/Services/UpdateService.cs:79 | Any number of leading v/V is ignored: "vV1.2" reads as "1.2". |
| Update.OlderIsStrictTotalOrder | LostArk_Farmer/LostArk_Farmer/Services/UpdateService.cs:83 | The version comparison is irreflexive, asymmetric, transitive and total. |
| Update.DigitsRoundTrip | LostArk_Farmer/LostArk_Farmer/Services/UpdateService.cs:81 | Reading a printed number gives the number back. |
| Update.SplitJoin | LostArk_Farmer/LostArk_Farmer/Services/UpdateService.cs:81 | Splitting dot-free pieces joined with dots gives the pieces back. |
| Update.JoinSplit | LostArk_Farmer/LostArk_Farmer/Services/UpdateService.cs:81 | Joining the pieces of a split gives the string back. |
| Update.ShownNumbersParse | LostArk_Farmer/LostArk_Farmer/Services/UpdateService.cs:81 | Printed components in range parse back to themselves. |
| Update.VersionRoundTrip | LostArk_Farmer/LostArk_Farmer/Services/UpdateService.cs:81-82 | Every well-formed version prints to a string that parses back to it. |
| Update.LeadingVRejected | LostArk_Farmer/LostArk_Farmer/Services/UpdateService.cs:79-82 | A string starting with v/V does not parse, which is why the tag is trimmed first. |
| Update.UpdateExactlyWhenNewer | LostArk_Farmer/LostArk_Farmer/Services/UpdateService.cs:77-84 | For the tag "v" + remote and a current version, ShouldUpdate holds exactly when current < remote. |
| Update.ParsedUntrimmed | LostArk_Farmer/LostArk_Farmer/Services/UpdateService.cs:79-82 | Trimming leading v/V does not change a string that parses. |
| Update.SameVersionNoUpdate | LostArk_Farmer/LostArk_Farmer/Services/UpdateService.cs:77-84 | A tag that names the running version, with any v prefix, never triggers an update. |
| Update.NoMutualUpdate | LostArk_Farmer/LostArk_Farmer/Services/UpdateService.cs:77-84 | If a would update b, then b would not update a. |
| Update.NoBarWithoutSize | LostArk_Farmer/LostArk_Farmer/Services/UpdateService.cs:209 | With a size <= 0, no read of the download draws anything. |
| Update.PrefixSumBounded | LostArk_Farmer/LostArk_Farmer/Services/UpdateService.cs:144-150 | totalRead never exceeds the final total. |
| Update.DownloadWithinSize | LostArk_Farmer/LostArk_Farmer/Services/UpdateService.cs:207-213 | When the reads add up to at most a positive size, every redraw draws a bar. |
| Update.FillMonotone | LostArk_Farmer/LostArk_Farmer/Services/UpdateService.cs:211-212 | The filled length never decreases as the download proceeds. |
| Update.FillWithinBar | LostArk_Farmer/LostArk_Farmer/Services/UpdateService.cs:211-213 | For 0 <= current <= total the fill lies in 0..40. |
| Update.FullBarAtTotal | LostArk_Farmer/LostArk_Farmer/Services/UpdateService.cs:210-213 | At current == total the bar is 40 '#' between brackets. |
| Update.Wrap32 | LostArk_Farmer/LostArk_Farmer/Services/UpdateService.cs:223 | The wrapped value is an Int32. |
| Update.WrapCongruent | LostArk_Farmer/LostArk_Farmer/Services/UpdateService.cs:223 | Wrapping changes a value by a multiple of 2^32, and leaves an Int32 value alone. |
| Update.ElapsedStaysMultipleOfFour | LostArk_Farmer/LostArk_Farmer/Services/UpdateService.cs:218-224 | The wrapping elapsed counter is always a multiple of 4 between Int32.MinValue and 2147483644. |
| Update.WrapKeepsMultipleOfFour | LostArk_Farmer/LostArk_Farmer/Services/UpdateService.cs:223 | Wrapping to 32 bits keeps a multiple of 4 a multiple of 4, so at most 2147483644. |
| Update.WaitAsWrittenNeverTimesOut | LostArk_Farmer/LostArk_Farmer/Services/UpdateService.cs:219-224 | For timeoutMs from 2147483645 to Int32.MaxValue, the loop guard `elapsed < timeoutMs` holds after any number of sleeps. |
| Update.ElapsedWrapStep | LostArk_Farmer/LostArk_Farmer/Services/UpdateService.cs:223 | The step that wraps: 2147483600 + 100 becomes -2147483596. |
| Update.ElapsedExactBelowWrap | LostArk_Farmer/LostArk_Farmer/Services/UpdateService.cs:218-223 | Until 100·k passes Int32.MaxValue the counter is exactly 100·k, so `WaitForInput` matches the code for those timeouts. |
| Farmer.ToggleOrigin | LostArk_Farmer/LostArk_Farmer/Program.cs:104-116 | F8 clears an origin that is set. Otherwise it sets one exactly when the window, the capture and the arrow are all there. |
| Farmer.FarmerProgram.constructor | LostArk_Farmer/LostArk_Farmer/Program.cs:19-21 | The program starts not running, with the overlay visible and no run's token. |
| Farmer.FarmerProgram.OnToggleOverlayRequested | LostArk_Farmer/LostArk_Farmer/Program.cs:95-101 | F7 flips overlay visibility and nothing else. |
| Farmer.FarmerProgram.OnStartRequested | LostArk_Farmer/LostArk_Farmer/Program.cs:119-127 | F9 sets running only when it was not running. |
| Farmer.FarmerProgram.OnStopRequested | LostArk_Farmer/LostArk_Farmer/Program.cs:130-139 | When running, F10 clears running and cancels the current run's token. Otherwise it does nothing. |
| Farmer.FarmerProgram.CaptureAndSetOrigin | LostArk_Farmer/LostArk_Farmer/Program.cs:277-291 | The origin is set to the arrow's centre when the handle is non-zero, the capture succeeds and the arrow is found. Otherwise it is left unchanged. |
| Farmer.FarmerProgram.OnSetOriginRequested | LostArk_Farmer/LostArk_Farmer/Program.cs:104-116 | The F8 handler's new origin is `ToggleOrigin` of the old one. |
| Farmer.FarmerProgram.PressButtons | LostArk_Farmer/LostArk_Farmer/Program.cs:220-229 | Emits `PressAll` for the step: each button in list order, each followed by a 200 ms gap when the step has gaps. The controller ends as that trace replayed. |
| Farmer.FarmerProgram.ReleaseButtons | LostArk_Farmer/LostArk_Farmer/Program.cs:236-242 | Emits `ReleaseAll`, last button first, and the controller ends as that trace replayed. |
| Farmer.FarmerProgram.RunSkillStep | LostArk_Farmer/LostArk_Farmer/Program.cs:214-247 | One step emits presses, hold, releases and cooldown, and the controller ends as the whole step replayed. |
| Farmer.FarmerProgram.SteerOnce | LostArk_Farmer/LostArk_Farmer/Program.cs:306-341 | One iteration either stops (deadline, token, handle, capture, arrival) without touching the stick, or writes the correction to the left stick. |
| Farmer.FarmerProgram.ExecuteReturnToOrigin | LostArk_Farmer/LostArk_Farmer/Program.cs:296-353 | With no origin nothing is written. Otherwise the outcome and writes are those of `ReturnRun`, always followed by a final (0,0) write, so the stick ends centred. |
| Farmer.FarmerProgram.RunSession | LostArk_Farmer/LostArk_Farmer/Program.cs:206-271 | Full rounds run until one's return sees the token cancelled, which ends the run after that round; no earlier round's return did. However the run ends, it finishes with every input reset and no token. The running and overlay flags are left to the handlers. |
| Farmer.FarmerProgram.RunRounds | LostArk_Farmer/LostArk_Farmer/Program.cs:211-256 | The rounds run are a prefix of the input. Every round but the last ran its return to the end without cancellation. The loop stops early exactly when the last round's return saw the token cancelled. No button outside the dictionary changes. |
| Farmer.FarmerProgram.RunRound | LostArk_Farmer/LostArk_Farmer/Program.cs:214-251 | A round's skill trace is `SkillsTrace` of all the skills. Afterwards the controller is that trace replayed, with the left stick centred if the return wrote to it. The round reports a stop exactly when the return saw the token cancelled. |
| Farmer.FarmerProgram.ReturnOnce | LostArk_Farmer/LostArk_Farmer/Program.cs:251 | The return reports a stop exactly when an origin is set and `ReturnRun` ends as cancelled at its test or in its delay. It moves the left stick at most. |
| Farmer.FarmerProgram.RunSkills | LostArk_Farmer/LostArk_Farmer/Program.cs:214-247 | The trace is `SkillsTrace` of the first n skills: each step's actions in full, in list order. The controller ends as that trace replayed, and no button outside the dictionary changes. |
| Farmer.SkillsPressOrder | LostArk_Farmer/LostArk_Farmer/Program.cs:214-229 | Over a whole skill loop the presses are every step's buttons, the steps taken in list order. |
| Farmer.PressAllKeys | LostArk_Farmer/LostArk_Farmer/Program.cs:220-229 | The presses are the step's buttons in list order. |
| Farmer.PressAllReleasesNothing | LostArk_Farmer/LostArk_Farmer/Program.cs:220-229 | The press phase releases no key. This follows from `PressAllHasNoRelease` through `NoReleaseNoReleasedKeys`. |
| Farmer.NoReleaseNoReleasedKeys | LostArk_Farmer/LostArk_Farmer/Program.cs:220-229 | A trace with no Release action releases no key. |
| Farmer.PressAllDelays | LostArk_Farmer/LostArk_Farmer/Program.cs:226-227 | The press phase waits 200 ms once per button when there are gaps, and never otherwise. |
| Farmer.ReleaseAllProjections | LostArk_Farmer/LostArk_Farmer/Program.cs:236-242 | The release phase releases the buttons in reverse order, and presses and waits nothing. |
| Farmer.CooldownProjections | LostArk_Farmer/LostArk_Farmer/Program.cs:245-246 | The cooldown waits only when CoolDownMs > 0. |
| Farmer.StepOrder | LostArk_Farmer/LostArk_Farmer/Program.cs:220-242 | A step presses its buttons in list order and releases them in exactly the reverse order. A null Buttons gives neither presses nor releases. |
| Farmer.StepDelays | LostArk_Farmer/LostArk_Farmer/Program.cs:226-246 | A step waits 200 ms after each press only when it is sequential with more than one button, then the hold, then the cooldown only when positive. |
| Farmer.PressesBeforeReleases | LostArk_Farmer/LostArk_Farmer/Program.cs:219-242 | In a step, no release comes before a press. |
| Farmer.ReplayAppend | LostArk_Farmer/LostArk_Farmer/Program.cs:214-247 | Replaying a trace in two parts is replaying it whole. |
| Farmer.PressAllHasNoRelease | LostArk_Farmer/LostArk_Farmer/Program.cs:220-229 | The press loop emits no release. |
| Farmer.ReleaseAll | LostArk_Farmer/LostArk_Farmer/Program.cs:236-242 | Every action of the release loop is a release of one of the step's buttons. |
| Farmer.ReplayOnAppend | LostArk_Farmer/LostArk_Farmer/Program.cs:214-247 | Driving the controller with two traces in turn is the same as driving it with their concatenation. A missing controller stays missing. |
| Farmer.DelaysKeepPad | LostArk_Farmer/LostArk_Farmer/Program.cs:233 | Waiting leaves the controller as it was. |
| Farmer.KeyEffectKeepsUnmapped | LostArk_Farmer/LostArk_Farmer/Services/VirtualControllerService.cs:51-67 | A key never touches a button the dictionary does not name. |
| Farmer.ReplayKeepsUnmapped | LostArk_Farmer/LostArk_Farmer/Program.cs:214-247 | No trace of skill actions touches a button the dictionary does not name. |
| Farmer.ReplayOnKeepsUnmapped | LostArk_Farmer/LostArk_Farmer/Program.cs:214-247 | Skill traces keep the controller present or absent, and leave every button outside the dictionary as it was. |
| Farmer.PressesTouchOnlyBound | LostArk_Farmer/LostArk_Farmer/Program.cs:220-229 | Presses change only the controls their keys are bound to. |
| Farmer.DrivesCons | LostArk_Farmer/LostArk_Farmer/Program.cs:220-242 | A list drives a control exactly when its head or its tail does. |
| Farmer.ReleaseOne | LostArk_Farmer/LostArk_Farmer/Program.cs:240 | A release sets its bound control to 0 and leaves any other control as it was. |
| Farmer.ReleasesRest | LostArk_Farmer/LostArk_Farmer/Program.cs:236-242 | After the release loop, every control driven by the step's keys is at rest, and every other control is as it was. |
| Farmer.StepLeavesNothingHeld | LostArk_Farmer/LostArk_Farmer/Program.cs:219-242 | After a whole step, every control its keys drive is back at 0, and every other control is as before the step. |
| Farmer.ReturnRunWrite | LostArk_Farmer/LostArk_Farmer/Program.cs:306-341 | The i-th stick write comes from an iteration that passed the loop test, had a window and a capture and had not arrived. It writes that correction, which is never (0,0). |
| Farmer.TickStepSteers | LostArk_Farmer/LostArk_Farmer/Program.cs:306-341 | One iteration steers exactly when the loop test passes, there is a window and a capture, and the correction is not an arrival. It then writes that correction, never (0,0). It never stops as NoTarget or CancelledInDelay, and it times out exactly when the clock has reached the deadline. |
| Farmer.ReturnRunFrom | LostArk_Farmer/LostArk_Farmer/Program.cs:306-345 | From iteration k on, the loop writes at most once per remaining tick. |
| Farmer.WritesWithinDeadline | LostArk_Farmer/LostArk_Farmer/Program.cs:301-345 | If every iteration takes at least 50 ms, the writes fit before the deadline: 50·(writes−1) < deadline − start. |
| Farmer.ClockFloor | LostArk_Farmer/LostArk_Farmer/Program.cs:345 | With at least 50 ms per iteration, the i-th loop test sees at least start + 50·i. |
| Farmer.AtMostSixtyWrites | LostArk_Farmer/LostArk_Farmer/Program.cs:301-345 | With at least 50 ms per iteration, a return makes at most 3000/50 = 60 non-zero stick writes before the final (0,0). |
| Farmer.WritesSteerTowardOrigin | LostArk_Farmer/LostArk_Farmer/Program.cs:322-341 | Every write comes from a frame where the arrow was found at least 10 px from the origin, and it points toward the origin in each axis. |
| Farmer.SteeringCorrection | LostArk_Farmer/LostArk_Farmer/Program.cs:322-332 | A correction that is not an arrival has a found arrow at least 10 px away and steers toward the origin. |
| Farmer.OnOriginNoWrites | LostArk_Farmer/LostArk_Farmer/Program.cs:328-332 | Standing on the origin, the loop stops at once as arrived, with no write before the final (0,0). |
| Farmer.HandlersIdempotent | LostArk_Farmer/LostArk_Farmer/Program.cs:119-139 | F9 twice is F9 once, and F10 twice is F10 once. F7 twice is no change. F10 cancels the token only when running, and does nothing otherwise. |
| Farmer.OriginToggleTwice | LostArk_Farmer/LostArk_Farmer/Program.cs:104-116 | F8 twice clears the origin and then sets it again from the capture. |

## Left out

- GetPositionAndSaveDebug: the OpenCV pipeline is not modelled; a frame carries the contours it finds. The pipeline is a foreign library over pixels: BGR to HSV, the inclusive green range test, the 5×5 dilation, FindContours, ContourArea, MinEnclosingCircle and BoundingRect.
- GetPositionAndSaveDebug: the debug drawing and PNG saving are left out. They are file I/O behind a constant-false flag.
- VisualPosition.CorrectionFor: Atan2, Cos, Sin and Math.Sqrt are modelled on exact reals. cos(atan2(−dy, dx)) is written as dx/d and sin as −dy/d, and sqrt is any function satisfying `IsSqrt`. Floating-point rounding is not modelled, so a stick value can differ from the real program's by one unit.
- VisualPosition.CorrectionFor: the (short) cast is modelled as truncation toward zero. No clamp is needed or added, because the components are proved to lie within ±32767.
- VisualPosition.RegionOfInterest: the margins `(int)(n * 0.15)` and `(int)(n * 0.20)` are computed with exact integer division. Double rounding of the products is not modelled.
- VisualPosition.Strength: the strength stays flat at 0.75 up to distance 150 and does not ramp from zero, as the code computes it.
- Text.ToUpper: upper-cases only the ASCII letters and keeps every other character unchanged. String.ToUpper maps non-ASCII letters as well, and it uses the current culture; neither is modelled. This changes bindings in two ways. First, 'ſ' (U+017F) upper-cases to 'S', so "ſtart" presses Start in the program and nothing in the model. Second, under a Turkish or Azerbaijani culture "right" becomes "RİGHT" (U+0130) and matches no case of the switch, while the model binds it to LeftThumbX.
- VirtualController.ControllerService.SendInput: a null key is not a separate value. A string is never null here, and the null case behaves like the blank key.
- VirtualController.ControllerService.Initialize: the ViGEm client, Connect and AutoSubmitReport are replaced by a flag saying whether the driver is present. The rethrown exception becomes that flag's false case.
- VirtualController.ControllerService.SetLeftStick: this method, Program's `InitializeAsync`, and VisualPositionService's `OnDebugImageReady`, `IsOverlayEnabled` and `IsScriptRunning` are used by Program.cs but do not exist in the service files. SetLeftStick is modelled as setting the two left-stick axes. The other members are left out, because their only effect is on the overlay.
- ResetAllInputs and SendInput: their `catch` blocks ignore driver errors. The model's state updates cannot fail, so those catches are not modelled.
- InputListener.StartListening: the endless Task.Run loop and its 10 ms delay are not modelled. `PollOnce` is one round and `Listen` is a run of readings. The fired keys are returned in order instead of invoking the event handlers.
- Update.ParseVersion: models Version.TryParse as 2 to 4 dot-separated runs of plain ASCII digits in Int32 range. TryParse's acceptance of signs and surrounding white space is not modelled.
- Update.ProgressBar: the fill `(int)((double)current / total * 40)` is computed as ⌊40·current/total⌋, truncated toward zero, in exact arithmetic. The percentage text and the carriage return are not modelled.
- Update.CheckForUpdates: the HTTP request, JSON parsing, streaming download, zip extraction, the batch script and Environment.Exit are left out. The request's result is a parameter, and any exception counts as a failed request (false).
- Update.PromptUpdate: Console.ReadKey is a parameter (`keyIsY`). The download itself is left out. On success ExecuteBatchUpdate starts the batch script and calls Environment.Exit(0) (UpdateService.cs:165, 204), so PerformUpdateAsync does not return. It returns only after its catch has swallowed a failure (UpdateService.cs:167-171), and PromptUpdate then still returns true. Main ignores that result (Program.cs:41), so after a failed download the program keeps running; only Environment.Exit stops it. The model's decision `Download` stands for both outcomes.
- Farmer.FarmerProgram.RunSession: Task.Run concurrency, the render loop, the UI thread and the real clock are left out. The stop is modelled as landing during a step's hold (a cancelled Task.Delay), or as the return loop seeing the token cancelled at its test or in its delay, which ends the run after that round. LoopDelayMs and the cooldown delays do not change the controller, so they are not traced there.
- Farmer.FarmerProgram.RunSession: the other exceptions caught at line 262 are not modelled. They end the run through the same `finally`, which the model covers.
- Farmer.FarmerProgram.ExecuteReturnToOrigin: the console messages and the `isMoving` flag only log, so they are not modelled. The clock and the token are read from the ticks.
- Farmer.ScriptConfig: a null Skills list, negative delays and JSON loading are not modelled. EnableAutoReturn is read nowhere in the code, and it is kept as an unused field.
- Farmer.DefaultProfile: CreateDefaultProfile is modelled as the data it writes. The file write is I/O.
- Program.Main start-up (update check, overlay thread, window wait) is I/O and is not modelled beyond `Update.CheckForUpdates`.

## Findings

| source | as written | input that shows it | evidently intended | confidence | as-written member | corrected member |
|---|---|---|---|---|---|---|
| LostArk_Farmer/LostArk_Farmer/Services/UpdateService.cs:218-224 | `int elapsed` grows by 100 per poll, in unchecked Int32 arithmetic. For timeouts above 2147483600 it wraps from 2147483600 to −2147483596 before reaching the timeout; timeouts up to 2147483600 end without wrapping. After the wrap the counter stays a multiple of 4, so for timeouts 2147483645 to 2147483647 the loop never ends, and for 2147483601 to 2147483644 it ends only after the counter has wrapped, up to about 2^30 polls later. | `WaitForInput(2147483647)` with no key pressed: the guard `elapsed < 2147483647` holds after every sleep. | The wait should give up after ⌈timeoutMs/100⌉ polls for every timeout. The only caller passes 10000, so the defect is latent. | low; not executed | Update.WaitAsWrittenNeverTimesOut | Update.WaitForInput |
