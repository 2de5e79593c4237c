# FaustLive window DSP lifecycle — a Dafny model

FaustLive is a live-coding host for Faust programs. Each window (`FLWindow`)
runs one DSP instance of one effect, and its audio goes through an audio
manager. The instance is created either from a local LLVM factory or on a
remote compilation node. This project models the part of a window that
manages that instance:

- **Initialisation** (`init_Window`): start the audio client, create the
  instance, build the interfaces against it, hand it to the audio manager,
  start the audio.
- **Hot-swap** (`update_Window`): create a candidate instance for a new
  effect, prepare a crossfade, rebuild the interfaces, crossfade, swap the
  pointers, and free the one instance no longer wanted. Any failure keeps
  the old DSP running.
- **Remote creation**: when the remote node has lost the factory, it is
  recompiled once and asked again. The error code becomes a user message
  (`getErrorFromCode`).
- **Audio flag**: `fClientOpen`, which `start_Audio`, `stop_Audio` and
  `close_Window` maintain.
- **Remote fault callback**: `RemoteDSPErrorCallback` falls back to local
  processing, with a 3-second debounce.
- **HTTP window placement coefficient**: `calculate_Coef`.
- **Recent menus**: the recent-file menu (4 slots) and the
  recent-session menus (3 slots).
- **PortAudio settings** (`PA_audioSettings`): dialog text to values and
  back, the one-line settings file, `isEqual` and `get_ArchiName`.

The window is an immutable `Window.Window` record. Each collaborator whose
code is not part of this model is a field of an oracle record passed to the
operation, so every proof holds for every combination of outcomes. These are
the instance factories, `FLEffect::reinit`, the audio manager's
`init_FadeAudio`/`setDSP`, `buildInterfaces` and the audio client. Each
operation also returns the sequence of steps it takes (`Trace.Event`). This
lets ordering ("the crossfade is prepared before the old interfaces are
deleted") and ownership ("exactly one instance is freed, with the deleter of
its own locality") be stated as properties of that sequence.

Modules:
- `Optional`: an option type.
- `RemoteErrors`: remote error codes and their messages.
- `Trace`: steps and the facts about step sequences.
- `DspCreation`: instance creation, local and remote.
- `Window`: window state, construction, start/stop/close.
- `WindowInit`: `init_Window`.
- `WindowUpdate`: `update_Window`.
- `RemoteFault`: the fault callback.
- `Placement`: `calculate_Coef`.
- `RecentMenus`: the recent-file and recent-session menus.
- `Decimal`: the decimal text of integers.
- `PASettings`: the PortAudio settings.

Times are milliseconds. Local and remote instances are told apart by
`Trace.Locality`.

## Model

| member | source | states |
|---|---|---|
| RemoteErrors.ErrorFromCode | src/MainStructure/FLWindow.cpp:111-130 | the message is never empty, and it is "ERROR not recognized" exactly for codes other than the four creation codes |
| RemoteErrors.ErrorFromCodeInjective | src/MainStructure/FLWindow.cpp:111-130 | the four creation codes have four distinct messages |
| DspCreation.CreateInstance | src/MainStructure/FLWindow.cpp:274-309 | the instance is the answer of the call that decided: the local factory's for a local effect, the first remote answer when it is an instance, the retry's after a lost factory and a successful reinit. It has the effect's locality. A local creation or a remote first success leaves the error buffer alone. Any remote failure leaves the message of the code last reported, even when the retry succeeds. |
| DspCreation.CreationSteps | src/MainStructure/FLWindow.cpp:274-309 | creation steps are only creation calls and delete nothing; a local effect makes exactly one local call |
| DspCreation.RemoteNeverLocal | src/MainStructure/FLWindow.cpp:277-308 | a remote effect never calls the local factory |
| DspCreation.RemoteRetryAtMostOnce | src/MainStructure/FLWindow.cpp:294-307 | a remote effect asks the node twice exactly when the factory was lost and the reinit succeeded, otherwise once |
| DspCreation.ResetOnlyWhenLost | src/MainStructure/FLWindow.cpp:297-300 | the factory is reset exactly when the first answer was NULL with the factory-not-found code |
| Window.DefaultImageOf | src/MainStructure/FLWindow.h:45-49 | a default image is shown for every kind but kNoInit, the blue one exactly for kInitBlue |
| Window.NewWindow | src/MainStructure/FLWindow.cpp:40-89 | a constructed window is taken to hold no instance and no interfaces; its audio client is not open, and its fault clock is the construction time |
| Window.StartAudio | src/MainStructure/FLWindow.cpp:846-865 | afterwards the client is open; nothing else about the window changes; the window is recalled before the audio starts |
| Window.StopAudio | src/MainStructure/FLWindow.cpp:830-844 | afterwards the client is closed; nothing else changes |
| Window.CloseWindow | src/MainStructure/FLWindow.cpp:700-730 | the audio manager is stopped exactly when the client was open. The interfaces are deleted. Exactly the running instance is freed, with the deleter matching its locality. |
| Window.StartStopAudio | src/MainStructure/FLWindow.cpp:830-865 | start then stop restores the window with the client closed; closing stops the audio after a start and not after a stop |
| WindowInit.InitSteps | src/MainStructure/FLWindow.cpp:135-224 | a failed audio client ends the run before any creation. A default image is printed exactly when interfaces were built for a default kind. Interfaces are deleted exactly on a setDSP failure. The audio starts exactly on success. Nothing is freed. |
| WindowInit.InitWindow | src/MainStructure/FLWindow.cpp:135-224 | success exactly when every collaborator succeeds, leaving a running, consistent window. Once the audio client starts, the window keeps the instance the creation returned, whatever fails later. Each failure leaves its own message: "Impossible to create a DSP instance" for a local effect, the message of the code the remote node reported last for a remote one, "Interface could not be allocated", the audio client's or setDSP's own. A failure leaves a closed client. No instance is freed, even on failure. |
| WindowInit.InitOrder | src/MainStructure/FLWindow.cpp:135-196 | on success: audio client, then interfaces, then setDSP, then start_Audio |
| WindowInit.InitDefaultImage | src/MainStructure/FLWindow.cpp:191-192 | on success the default image appears exactly when the kind is not kNoInit |
| WindowUpdate.UpdateSteps | src/MainStructure/FLWindow.cpp:311-389 | when a candidate was created exactly one instance is freed: the old one on commit, the candidate otherwise. Each is freed with the deleter of its own locality. |
| WindowUpdate.UpdateWindow | src/MainStructure/FLWindow.cpp:265-389 | returns true exactly when the candidate exists, the fade is prepared and the new interfaces are built. Then the window runs the candidate and the new effect, and only the old instance is freed. Otherwise instance and effect are unchanged and the candidate (if any) is freed. The instance left running is never the one freed. Messages per failure: "Impossible to allocate DSP" for a local effect, the message of the code the remote node reported last for a remote one, the fade's own, "Impossible to allocate new interface". After a failed build the interfaces are rebuilt against the old instance. Consistency is preserved. |
| WindowUpdate.SwapSteps | src/MainStructure/FLWindow.cpp:317-347 | the pointers are swapped exactly on commit; the old interfaces are deleted exactly when the fade was prepared for a candidate |
| WindowUpdate.FadeBeforeTeardown | src/MainStructure/FLWindow.cpp:317-319 | init_FadeAudio comes before deleteInterfaces |
| WindowUpdate.CommitOrder | src/MainStructure/FLWindow.cpp:327-378 | start_Fade before wait_EndFade, before the swap, before the old instance is freed |
| WindowUpdate.CreationFirst | src/MainStructure/FLWindow.cpp:271-309 | the window is saved and hidden, then the instance is created, and no creation step (local or remote call, reset, reinit) comes later |
| WindowUpdate.RemoteCallsOnlyWhileCreating | src/MainStructure/FLWindow.cpp:311-389 | the swap itself never asks the remote node for an instance |
| WindowUpdate.UpdateRemoteAttempts | src/MainStructure/FLWindow.cpp:277-307 | an update asks the remote node for an instance 0 times (local effect), 2 times (factory lost and recompiled) or 1 time |
| WindowUpdate.UpdateOrdering | src/MainStructure/FLWindow.cpp:313-378 | for every outcome: swap iff success, teardown iff the fade was prepared and only after it, and the commit order above |
| WindowUpdate.UpdateAll | src/MainStructure/FLWindow.cpp:265-389 | a series of updates always leaves an instance running and never touches the client flag or the fault clock |
| WindowUpdate.UpdatesKeepRunning | src/MainStructure/FLWindow.cpp:311-389 | a running window keeps running through any series of updates whose rebuilds succeed, and runs its first effect or one of those it was asked to swap to |
| RemoteFault.SecsTo | src/MainStructure/FLWindow.cpp:1532 | whole seconds elapsed, truncated toward zero: forward, s seconds means between s and s+1 seconds; backward, between s-1 and s |
| RemoteFault.OnRemoteError | src/MainStructure/FLWindow.cpp:1525-1546 | the fault time is always recorded and -1 always returned. The window falls back to "localhost" port 0 exactly for a read/write fault at least 4 s (more than 3 whole seconds) after the previous fault. |
| RemoteFault.FallbackIffSpaced | src/MainStructure/FLWindow.cpp:1532-1543 | along any stream of faults, a fault falls back exactly when it is a transport fault at least 4 s after the fault before it (the construction, for the first): bursts are coalesced |
| RemoteFault.FreshWindowCoalesces | src/MainStructure/FLWindow.cpp:86 | a fault within 4 s of construction does not fall back |
| Placement.CalculateCoef | src/MainStructure/FLWindow.cpp:986-993 | indexes up to 20 are kept. Larger ones land in 1..20 and stay congruent to the index modulo 20. The result equals the closed form (index-1) mod 20 + 1. |
| Placement.CoefPeriodic | src/MainStructure/FLWindow.cpp:986-993 | windows 20 indexes apart get the same coefficient |
| RecentMenus.UpdateRecentFileMenu | src/MainStructure/FLWindow.cpp:1422-1440 | the first min(4, n) slots show, in order, each file's name and carry its path; later slots are left as they were |
| RecentMenus.OpenRecentFileOpensListed | src/MainStructure/FLWindow.cpp:1442-1448 | starting from the hidden actions the constructor makes, a visible slot j opens the j-th recent file |
| RecentMenus.ExistingOnly | src/MainStructure/FLWindow.cpp:1456-1460 | a session path is kept exactly when it was listed and exists |
| RecentMenus.FileName | src/MainStructure/FLWindow.cpp:1465 | the file name is the end of the path, holds no '/', and follows a '/' when it is not the whole path |
| RecentMenus.ExistingOnlyKeepsOrder | src/MainStructure/FLWindow.cpp:1456-1460 | the kept sessions are the listed ones with some removed, the others in their original order |
| RecentMenus.ExistingOnlyAllExist | src/MainStructure/FLWindow.cpp:1456-1460 | when every listed session exists, none is removed |
| RecentMenus.ExistingOnlyIdempotent | src/MainStructure/FLWindow.cpp:1456-1460 | filtering an already filtered list removes nothing |
| RecentMenus.ExistingOnlyCounts | src/MainStructure/FLWindow.cpp:1456-1460 | every occurrence of a listed session whose file exists is kept, repeats included, and no occurrence of the others |
| RecentMenus.BaseName | src/MainStructure/FLWindow.cpp:1465 | the base name is the start of the path's last component, up to (not including) its first '.'; it holds no '/' and no '.' |
| RecentMenus.SessionLabel | src/MainStructure/FLWindow.cpp:1465-1467 | the label is '&', the slot number j+1, a space, then the file's base name |
| RecentMenus.RemoveMissingSessions | src/MainStructure/FLWindow.cpp:1456-1460 | a session is kept exactly when it was listed and its file exists |
| RecentMenus.FillSessionMenus | src/MainStructure/FLWindow.cpp:1462-1480 | the first 3 sessions fill the same slot of both menus with their label and path, shown; other slots are hidden, keeping their text |
| RecentMenus.UpdateRecentSessionMenu | src/MainStructure/FLWindow.cpp:1454-1481 | the kept list is the session list with exactly the missing sessions removed (repeats kept, order kept). The first 3 remaining fill the same slot of both menus with their label and path, shown. Other slots are hidden, keeping their text. |
| Decimal.ParseIntRoundTrip | src/PA_audioSettings.cpp:52-67 | reading back the decimal text of any integer gives that integer |
| Decimal.IntToStringInjective | src/PA_audioSettings.cpp:52-60 | distinct values are shown as distinct texts |
| PASettings.FieldValue | src/PA_audioSettings.cpp:65-73 | a field spelling a nonzero integer gives it; anything else gives the default, so the result is never 0 |
| PASettings.VisualTexts | src/PA_audioSettings.cpp:52-60 | each field's text reads back as the value it shows |
| PASettings.StoreVisualSettings | src/PA_audioSettings.cpp:63-84 | stored settings are never 0. A field that is not an integer, or is 0, gives 512 (buffer) or 44100 (rate). Any other integer is stored. |
| PASettings.VisualRoundTrip | src/PA_audioSettings.cpp:52-84 | showing valid settings and storing them back changes nothing |
| PASettings.StoreVisualIdempotent | src/PA_audioSettings.cpp:52-84 | after one store, show and store again is a no-op |
| PASettings.WriteSettings | src/PA_audioSettings.cpp:87-99 | the saved line is the sample rate's decimal text, then a space, then the buffer size's |
| PASettings.ReadSettings | src/PA_audioSettings.cpp:101-116 | no file gives 512/44100. A file without a space gives its number (or 0) as sample rate and 0 as buffer size. |
| PASettings.ReadFields | src/PA_audioSettings.cpp:101-116 | a file "a b" whose a is a number is read as sample rate a and buffer size b (0 when b is not an integer); when a is not a number both are 0, since the failed read leaves a in the stream |
| PASettings.EmptyFileReadsZero | src/PA_audioSettings.cpp:101-116 | an empty settings file stores 0 in both fields, so read settings need not be valid |
| PASettings.WriteReadRoundTrip | src/PA_audioSettings.cpp:87-116 | reading the file just written gives back the same settings |
| PASettings.IsEqual | src/PA_audioSettings.cpp:119-130 | true exactly for PortAudio settings with the same buffer size and sample rate |
| PASettings.ArchiName | src/PA_audioSettings.cpp:133-135 | PortAudio settings are named "PortAudio" |
| PASettings.IsEqualProperties | src/PA_audioSettings.cpp:119-130 | isEqual is reflexive, symmetric and transitive, coincides with equality of the pairs, and holds only of PortAudio settings |

## Left out

- The Qt user interface (geometry, toolbars, menus other than the recent ones, drag and drop, the HTTP and OSC interfaces, the remote-control interface), saving and recalling parameter files, and the window's home directory: each appears only as a step name in the trace, or not at all.
- What the collaborators do internally: the LLVM and remote factories, FLEffect::reset/reinit, the audio managers, init_FadeAudio, start_Fade/wait_EndFade, buildInterfaces, setDSP and the audio client. Their results are oracle fields.
- The numeric values of the remote error codes: remote-dsp.h is not part of this model, so the codes are a datatype.
- The NetJack arguments passed to createRemoteDSPInstance (local IP, latency, compression) and the sample rate and buffer size it is given.
- The start and stop of a remote instance's own audio (startAudio/stopAudio on the remote_dsp) in start_Audio and stop_Audio.
- Concurrency: the fault callback runs on a remote library thread; the model treats each call as atomic.
- WindowUpdate.UpdateWindow: requires a running instance (`current` is Some), because the rollback path rebuilds against fCurrent_DSP.
- WindowInit.InitWindow: requires a freshly constructed window, which is how it is called.
- The redirectSwitch migration itself: the model stops at the fallback target it is given.
- The message shown for the remote fault is carried in the target, not emitted.
- WindowUpdate.UpdateWindow: when both the new build and the rebuild against the old instance fail, the source calls run on the missing interface. The model records the step and leaves the window without interfaces.
- WindowInit.InitWindow: the instance created by a failing initialisation is not freed in the source. The model states this (no deletion) rather than correcting it.
- Decimal.ParseInt: isStringInt, atoi and `QTextStream >> long` are modelled by one reader: an optional '-' and decimal digits, at unbounded width. Surrounding whitespace, a leading '+' and the 32/64-bit overflow of atoi and long are not modelled.
- PASettings.ReadSettings: each field is the text on one side of the first space. A sample rate that is not wholly an integer gives 0 for both fields; a buffer size that is not wholly an integer reads as 0. QTextStream also skips leading whitespace, reads the digits of a field that continues with other characters, and accepts "0x" and octal prefixes; those readings are not modelled.
- PASettings.WriteSettings: a file that cannot be opened for writing is not modelled; the operation gives the text that would be written.
- RemoteFault.SecsTo: the clock is a parameter in milliseconds, and the rounding of QDateTime::secsTo is taken as truncation toward zero.
- RecentMenus.BaseName: QFileInfo is reduced to splitting at '/' and the first '.'; the menu's translation (tr) is the identity.
- Window.NewWindow: the constructor leaves fCurrent_DSP and fInterface uninitialised; the model takes them as absent. So a close after an init_Window that failed at the audio client frees nothing in the model, where the source would hand an uninitialised pointer to the deleter.
- WindowUpdate.UpdateWindow: requires the creation calls to answer with an instance other than the running one (`FreshFor`), as a fresh allocation does; a series of updates requires this at each step (`FreshAlong`).
- Window.CloseWindow: the deletion of the audio manager, the menu and the HTTP window, and the blocking of signals, are not modelled.
