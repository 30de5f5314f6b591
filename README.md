# QoLBar core, modelled in Dafny

QoLBar is an overlay plugin for a game client. Most of its main file,
`QoLBar.cs`, wires the plugin into its host. Inside it are five small pieces
of logic that this project models and proves properties of:

- **`/qolvisible [on|off|toggle] <bar>`** (module `Commands`, file `commands.dfy`).
  - The argument is matched against `^(\w+) (.+)` and the first word is lower-cased.
  - The word is mapped to a reveal, hide or toggle request.
  - The request targets a bar by 1-based number (sent as index N-1) or by name.
  - The outcome is a value: `UsageError`, `InvalidSubcommand`, `SetByIndex` or `SetByName`.
- **`/performance <instrument>`** (`Commands`).
  - A byte literal is tried first.
  - Otherwise the first instrument row whose name matches, ignoring case, supplies the low byte of its row id.
  - 0 is rejected with "Invalid instrument.".
- **The plugin object** (class `QoLBarPlugin.QoLBar`, `plugin.dfy`).
  - `ReadyPlugin` runs the one-shot initialisation and sets `pluginReady`.
  - `Update` and `Draw` are the per-tick callbacks, gated on `pluginReady`.
  - User icons load over several frames, driven by `_addUserIcons`, `_iconsLR` and `_iconsHR`.
  - `CleanTextures` disposes or empties the four texture dictionaries.
  - Every call into a collaborator is an `Event` appended to the object's `trace`. Whether such a call throws is an oracle `ok: Event -> bool` passed to the method that makes it.
- **The font-size clamp** used when the font is built (`ClampFontSize`).
- **`Extensions.GetGrayscaleImageData`** (`extensions.dfy`).
  - A `for` loop writes a fresh byte array from an RGBA image.
  - The luminance of a colour is a parameter `lum`.

The .NET pieces the commands rely on are in `DotNetText` (`text.dfy`): the
regex class `\w`, `ToLower`, case-insensitive equality, and `int.TryParse` /
`byte.TryParse` with the default `NumberStyles.Integer`. Shared value types are
in `Primitives` (`primitives.dfy`): `Option`, `byte`, the 32-bit range and its
wrap-around, the byte cast, and the longest prefix satisfying a predicate.

On these points the code's behaviour may be unexpected, and the model
follows it:

- `Update` and `Draw` have no try/catch. A collaborator that throws ends the callback: the later calls of that tick do not run and the exception escapes to the host. `Update` and `Draw` therefore return `escaped`. There is no per-step failure isolation.
- `pluginReady = true` is set before `IPC.InitializedProvider.SendMessage()`. If that last call throws, the failure is logged but the plugin stays ready. A failure in any of the nine earlier calls leaves it not ready.
- Group 2 of `^(\w+) (.+)` stops at the first line feed, because `.` does not match `\n`. The bar text is therefore everything after the first space only up to the first line feed.
- `id - 1` is unchecked 32-bit arithmetic, so `/qolvisible on -2147483648` targets index 2147483647.

## Model

| member | source | states |
|---|---|---|
| Primitives.Wrap32 | QoLBar.cs:117 | unchecked `int` arithmetic: the result is a 32-bit value congruent to the input modulo 2^32, and equals the input when the input is already in range |
| Primitives.ToByte | QoLBar.cs:152 | the `(byte)` cast keeps the value modulo 256, and keeps values below 256 unchanged |
| DotNetText.ToLowerIsLiteral | QoLBar.cs:108 | lower-casing a word gives a lower-case literal exactly when the word spells that literal in any mix of cases |
| DotNetText.TrimStart | QoLBar.cs:110 | dropping leading white space leaves a suffix of the text, preceded only by white space and not itself starting with white space |
| DotNetText.TrimEnd | QoLBar.cs:110 | dropping trailing white space leaves a prefix of the text, followed only by white space and not itself ending with white space |
| DotNetText.ParseInteger | QoLBar.cs:110 | the text-to-integer reading of `NumberStyles.Integer`; what it accepts is stated by `DotNetText.ParseIntegerGrammar` |
| DotNetText.ParseIntegerGrammar | QoLBar.cs:110 | the reading succeeds with `v` exactly when the text is optional white space, an optional `+` or `-`, one or more decimal digits and optional white space, and the signed digits are `v` |
| DotNetText.ParseIntegerReads | QoLBar.cs:110 | the same equivalence, for every `v` at once |
| DotNetText.TryParseInt32 | QoLBar.cs:110 | `int.TryParse` succeeds exactly when the text is, by that grammar, an integer in the 32-bit range, and it then yields that integer; it fails exactly when the text is no integer or is out of range |
| DotNetText.TryParseByte | QoLBar.cs:149 | `byte.TryParse` succeeds exactly when the text is, by that grammar, an integer in 0..255, and it then yields that byte; it fails exactly when the text is no integer or is out of range |
| DotNetText.ParseIntegerRoundTrip | QoLBar.cs:110 | the decimal text of any integer is read back as that integer |
| DotNetText.TryParseInt32RoundTrip | QoLBar.cs:110 | the decimal text of any 32-bit integer parses to that integer |
| DotNetText.TryParseByteRoundTrip | QoLBar.cs:149 | the decimal text of any byte parses to that byte |
| Commands.MatchBarCommand | QoLBar.cs:105 | `Regex.Match(argument, @"^(\w+) (.+)")` with its two groups; what it accepts and returns is stated by `Commands.MatchBarCommandAccepts` and `Commands.MatchBarCommandGroups` |
| Commands.MatchBarCommandAccepts | QoLBar.cs:105-106 | the matcher succeeds exactly on text that starts with one or more word characters, then a space, then a character other than a line feed |
| Commands.MatchBarCommandGroups | QoLBar.cs:105-109 | the two groups returned are exactly those of the anchored, greedy match: the maximal leading word, and the text after the space up to the first line feed or the end |
| Commands.SubcommandAlias | QoLBar.cs:111-139 | the `switch` on the lower-cased subcommand; which words select which request is stated by `Commands.AliasIgnoresCase` |
| Commands.AliasIgnoresCase | QoLBar.cs:108-135 | the subcommand selects reveal, hide or toggle exactly when the word spells one of that request's aliases (`on`/`reveal`/`r`, `off`/`hide`/`h`, `toggle`/`t`) in any case, and selects none otherwise |
| Commands.QoLVisible | QoLBar.cs:103-143 | `OnQoLVisible` as a function from the argument to its outcome; its behaviour is stated by `Commands.QoLVisibleUsageError`, `Commands.QoLVisibleDispatch` and `Commands.QoLVisibleHideIndex` |
| Commands.SetBarHiddenArgs | QoLBar.cs:117-134 | the `(toggle, hide)` arguments of each request; which request sends which pair is stated by `Commands.QoLVisibleDispatch` |
| Commands.QoLVisibleUsageError | QoLBar.cs:105-142 | the outcome is the usage error exactly when the argument does not match the pattern |
| Commands.QoLVisibleDispatch | QoLBar.cs:108-139 | on a match: "Invalid subcommand." exactly when the word is no alias; reveal sends `(toggle=false, hide=false)`, hide sends `(false, true)`, toggle sends `toggle=true` with `hide` left at its default; integer text N targets index N-1 (wrapped) and never a name; other text targets the bar named by the whole of group 2; there is never a usage error |
| Commands.VisibleErrorMessage | QoLBar.cs:137-142 | the error text `/qolvisible` prints; stated by `Commands.VisibleErrorMessageText` and `Commands.QoLVisibleErrorText` |
| Commands.VisibleErrorMessageText | QoLBar.cs:137-142 | the usage error prints `ChatError("Usage: /qolvisible …")`, an invalid subcommand prints `ChatError("Invalid subcommand.")` (the two texts differ), and the two `SetBarHidden` requests print nothing |
| Commands.QoLVisibleErrorText | QoLBar.cs:136-142 | the usage text is printed exactly when the pattern rejects the argument, the invalid-subcommand text exactly on an invalid subcommand, and no error exactly when `SetBarHidden` is called |
| Commands.QoLVisibleHideIndex | QoLBar.cs:121-125 | a hide alias in any case, followed by integer text N, hides the bar at index N-1 (wrapped) with `toggle=false` |
| Commands.OffTextMatches | QoLBar.cs:105 | `off N` matches the pattern with groups `off` and the decimal text of N |
| Commands.QoLVisibleHideByPosition | QoLBar.cs:121-125 | `off N` for any 32-bit N hides the bar at index N-1, which is exactly N-1 except for the minimum integer |
| Commands.FirstRowNamed | QoLBar.cs:150-151 | the lookup returns the first row whose instrument name equals the argument ignoring case, and nothing exactly when no row matches |
| Commands.PerformanceSelector | QoLBar.cs:149-152 | the byte `b` holds after the parse-then-lookup; stated by `Commands.PerformanceByNumber`, `Commands.PerformanceByName` and `Commands.PerformanceUnknown` |
| Commands.Performance | QoLBar.cs:154-157 | a performance is started only with a non-zero instrument |
| Commands.PerformErrorMessage | QoLBar.cs:155 | the error text `/performance` prints; stated by `Commands.PerformanceErrorText` |
| Commands.PerformanceErrorText | QoLBar.cs:154-157 | `ChatError("Invalid instrument.")` is printed exactly when the selected byte is 0; otherwise nothing is printed and that byte is played |
| Commands.ChatError | QoLBar.cs:259 | every error text is exactly the ten characters `[QoL Bar] ` followed by the message |
| Commands.PerformanceByNumber | QoLBar.cs:149-157 | a successful byte parse is used as it is, whatever the table holds; 0 gives "Invalid instrument." |
| Commands.PerformanceByNumberText | QoLBar.cs:149-157 | the decimal text of any byte, "0" included, selects that byte, and "0" is rejected |
| Commands.PerformanceByName | QoLBar.cs:149-157 | text that is not a byte selects the low byte of the row id of the first row named like it, ignoring case; 0 is rejected |
| Commands.PerformanceUnknown | QoLBar.cs:149-157 | text that is neither a byte nor an instrument name gives "Invalid instrument." |
| QoLBarPlugin.AttemptedStopsAtFirstFailure | QoLBar.cs:57-74 | a straight run of calls completes exactly when every call returns normally, and then makes all of them; otherwise it makes the calls up to and including the first that throws, all the earlier ones having returned |
| QoLBarPlugin.IconStep | QoLBar.cs:218-236 | one call of `AddUserIcons(ref _addUserIcons)` on the three flags; its behaviour is stated by `QoLBarPlugin.IconStepProperties` |
| QoLBarPlugin.IconStepProperties | QoLBar.cs:218-236 | in one step: the outer flag becomes "LR or HR still pending"; the icon cache is rebuilt exactly on the step that clears it; with nothing pending on entry both loaders are called; otherwise only the pending variants' loaders are called; a variant stays pending exactly when its loader was called and did not report "finished"; both finished ends the pass; the icon path is looked up first |
| QoLBarPlugin.DrawFrames | QoLBar.cs:179-180 | the icon-loading part of successive `Draw` calls, a step only while loading is requested; stated by `QoLBarPlugin.QoLBar.Draw` and the lemmas `IdleFramesDoNothing`, `DrawFramesValid`, `FinishedVariantNotReloaded` and `CacheBuiltOncePerPass` |
| QoLBarPlugin.IdleFramesDoNothing | QoLBar.cs:179-180 | while no load is requested, any number of frames makes no calls and changes no flag |
| QoLBarPlugin.DrawFramesValid | QoLBar.cs:215-236 | over any number of frames a variant is pending only while loading is requested |
| QoLBarPlugin.FinishedVariantNotReloaded | QoLBar.cs:228-232 | a variant whose loader has reported "finished" while the other is still pending is not loaded again for the rest of the pass, over any number of frames |
| QoLBarPlugin.CacheBuiltOncePerPass | QoLBar.cs:234-235 | once the step that rebuilds the icon cache has run, later frames make no further calls |
| QoLBarPlugin.NewRequestLoadsBoth | QoLBar.cs:220-224 | with the flags consistent, a request made after a pass has ended starts a fresh pass: the next step calls both loaders |
| QoLBarPlugin.CleanSteps | QoLBar.cs:242-255 | four calls, one per dictionary in the order LR, HR, grey LR, grey HR; each is a dispose when disposing and an empty otherwise |
| QoLBarPlugin.ClampFontSize | QoLBar.cs:195 | the font size is in 1..64; it is the configured size when that lies in range, 1 below it and 64 above it |
| QoLBarPlugin.QoLBar.constructor | QoLBar.cs:52 | the new plugin is ready exactly when all nine initialisation calls succeed; no icon load is pending; its calls are those of `ReadyPlugin` |
| QoLBarPlugin.QoLBar.RunSteps | QoLBar.cs:170-174 | a block of straight-line calls (also lines 59-71, 184-185 and 244-254): the calls are appended up to and including the first that throws, which is reported; `AttemptedStopsAtFirstFailure` describes that run |
| QoLBarPlugin.QoLBar.ReadyPlugin | QoLBar.cs:55-79 | `pluginReady` becomes true exactly when the nine calls before it all return; the calls are made in source order up to the first that throws; the announcement follows only a complete run; any throw is logged and none escapes |
| QoLBarPlugin.QoLBar.Update | QoLBar.cs:166-175 | before ready: no calls; when ready: backup, ready-command poll, keybind run, hotkey setup and condition-cache refresh, in that order, up to the first that throws, which escapes |
| QoLBarPlugin.QoLBar.AddUserIconsStep | QoLBar.cs:218-236 | the flags and the calls made are those of one icon step, and flag consistency is kept |
| QoLBarPlugin.QoLBar.Draw | QoLBar.cs:177-186 | the pending icon step runs whether or not the plugin is ready; the update window and then the bars are drawn only when ready, up to the first that throws |
| QoLBarPlugin.QoLBar.RequestUserIcons | QoLBar.cs:238 | requests a load, keeping flag consistency |
| QoLBarPlugin.QoLBar.CleanTextures | QoLBar.cs:240-256 | the four clean-up calls are made in order up to the first that throws, which escapes and skips the remaining dictionaries |
| Extensions.GrayPixels | QoLBar.cs:302 | the grey image is as long as the input |
| Extensions.GrayPixelsByte | QoLBar.cs:303-317 | every byte of the grey image is given by its pixel's alpha: the alpha channel is copied, the colour channels hold the luminance when alpha is positive and 0 otherwise, and bytes after the last whole pixel are 0 |
| Extensions.GrayPixelsPixel | QoLBar.cs:305-316 | each whole grey pixel is the four bytes that closed form gives |
| Extensions.GrayscaleWholePixels | QoLBar.cs:305-316 | every whole grey pixel is the four closed-form bytes |
| Extensions.GrayscaleTrailingZero | QoLBar.cs:302-303 | the bytes after the last whole pixel are 0 |
| Extensions.GrayscaleProperties | QoLBar.cs:300-318 | the output is as long as the input; every whole pixel keeps its alpha; a transparent pixel has R=G=B=0; a visible pixel has R=G=B equal to its luminance; trailing bytes beyond the last whole pixel are 0 |
| Extensions.GetGrayscaleImageData | QoLBar.cs:298-319 | the loop fills a fresh array with exactly the grey image of the input |

## Left out

- DotNetText.IsWordChar: `\w` covers ASCII letters, digits and `_` only. The other characters of the Unicode letter (L), non-spacing mark (Mn), decimal digit (Nd) and connector punctuation (Pc) categories, which .NET's `\w` also accepts, are not modelled: for `٣ 5` .NET reports "Invalid subcommand." where the model reports the usage error.
- DotNetText.ToLower: `ToLower` and `CurrentCultureIgnoreCase` comparison are ASCII case folding only. Culture-specific case rules are not modelled.
- DotNetText.TryParseInt32: only ASCII digits and the signs `+` and `-` are read. Culture-specific sign symbols and trailing NUL characters are not modelled. (.NET, like the model, reads only the ASCII digits `0`-`9`.) The same holds for DotNetText.TryParseByte.
- Extensions.GetGrayscaleImageData: the single-precision luminance formula at line 310 is the parameter `lum`. Float rounding and the float-to-byte cast are not modelled. Reading the texture's RGBA data (`tex.GetRgbaImageData()`) becomes the input sequence.
- QoLBarPlugin.ClampFontSize: works on unbounded reals, so C# `float` rounding and NaN are not modelled. The rest of `SetupFont` (disposing and rebuilding the font handle with the host's font atlas) is host library code and is left out.
- QoLBarPlugin.QoLBar.AddUserIconsStep: the texture dictionaries' `AddUserIcons`, `Config.GetPluginIconPath` and `IconBrowserUI.BuildCache` are assumed not to throw. Their effect is only their `finished` result and a recorded call, so an exception escaping `Draw` from the icon step is not modelled.
- QoLBarPlugin.QoLBar.constructor: only the end of the constructor is modelled — the flags at their initial values, then `ReadyPlugin`. Host registration, configuration loading, UI creation, `SetupFont` and `CheckHideOptOuts` (lines 36-50) are host calls.
- Commands.QoLVisibleDispatch: stops at the request to `PluginUI.SetBarHidden`. How the UI resolves an index or a name, and the default value of its `hide` parameter, are not part of this model.
- Commands.FirstRowNamed: the game's `Perform` sheet is a plain sequence of (instrument name, row id) pairs. Lumina's sheet loading is not modelled.
- Printing to chat (`PrintError`, `PrintEcho`) is modelled only as the message text an error outcome carries (`VisibleErrorMessage`, `PerformErrorMessage`).
- `Reload`, `ToggleConfig`, `ToggleIconBrowser`, `HasPlugin`, `IsLoggedIn`, `RunTime`, `FrameCount`, `CheckHideOptOuts` and `GetUserIcons` are host queries or fixed host calls with no logic of their own and are left out.
- `Dispose(bool)` and `Dispose()` are host teardown: when disposing, they notify IPC, save the configuration, unhook the host events, dispose the UI and the game hooks, and end with `CleanTextures(true)`, which is modelled. The teardown sequence itself is left out.
- `Extensions.GetDefaultValue` and `Extensions.Cast` rely on .NET reflection and expression compilation and are left out.
- The bodies of the collaborators (configuration backup and versioning, IPC, keybinds, the condition manager, the game hooks, the texture dictionaries and the bar UI) are not in `QoLBar.cs`. They appear only as recorded calls that may throw.
- The host calls `Update` and `Draw` on its own schedule. The model treats each call as one atomic step.
