# mybarista, modelled in Dafny

This project models the core of mybarista, an i3 status-bar configuration in Go built on the
barista library, and the parts of the vendored barista library that it relies on:

- **MockIO** (`mockio.dfy`): the in-memory stdout (`Writable`) and stdin (`Readable`) streams
  used in barista's tests.
  - The byte buffer of each stream is a field.
  - `ReadUntil` reads through a delimiter. While the delimiter is missing it waits for later
    writes until a timeout.
  - The writes and the timeout that happen during the wait are a sequence of events passed in
    by the caller. Each write says whether its signal woke the waiting reader or was dropped
    because the reader was busy.
- **Group** (`collapsing.dfy`): the collapsable group. It holds its modules and a collapsed flag;
  its modules are visible exactly when the group is expanded. It also has a toggle button.
- **Clock** (`clock.dfy`): the clock module.
  - It has setters for the format, the output function, the timezone and the granularity.
  - `update` shows the time and reschedules itself at the next multiple of the granularity.
    It does nothing when loading the timezone failed.
  - The requests the module makes of the bar are recorded as a log of effects.
- **MaterialCommunity** (`material_community.dfy`): the callback that reads the Material
  Design icon list one line at a time.
  - It skips lines until the `$mdi-icons:` marker.
  - After the marker, it splits each line at the first colon and trims both halves.
- **MyBarista** (`mybarista.dfy`): the configuration's own helpers.
  - `truncate`, which keeps at most a number of runes and ends a cut string with an ellipsis.
  - `hms` and `formatMediaTime`.
  - The media display's text budget.
  - The battery colour thresholds.

Go's integer conversions and `%` truncate toward zero; they are written out as `Quot` and `Rem`.
Go's `len` of a string is its UTF-8 byte count, written out as `ByteLen`. Strings in
`mybarista.go` and the icon loader are sequences of runes. The streams work on bytes.

## Model

| member | source | states |
|---|---|---|
| Shared.IndexOf | vendor/github.com/soumya92/barista/testing/mockio/mockio.go:60 | the position of the first occurrence of the byte `bytes.Buffer.ReadString` looks for, or -1 exactly when it is absent |
| MockIO.ReadString | vendor/github.com/soumya92/barista/testing/mockio/mockio.go:60 | line and rest concatenate to the buffer; no error iff the delimiter is present; when found, the line ends with it and it occurs there once; otherwise the error is EOF, the line has no delimiter and the rest is empty |
| MockIO.Writable.Stdout | vendor/github.com/soumya92/barista/testing/mockio/mockio.go:84-89 | a new stdout stream has an empty buffer |
| MockIO.Writable.Write | vendor/github.com/soumya92/barista/testing/mockio/mockio.go:37-43 | appends all of the data to the buffer, reports its length and no error |
| MockIO.Writable.ReadNow | vendor/github.com/soumya92/barista/testing/mockio/mockio.go:48-54 | returns the whole buffer and leaves it empty |
| MockIO.Writable.TakeString | vendor/github.com/soumya92/barista/testing/mockio/mockio.go:59-61 | takes the prefix through the first delimiter off the buffer, or the whole buffer with EOF |
| MockIO.Writable.ReadUntil | vendor/github.com/soumya92/barista/testing/mockio/mockio.go:58-80 | a delimiter already buffered is returned at once; otherwise the result is exactly the waiting loop `Waiting`; no byte written before the return is lost, duplicated or reordered between the result and the buffer; no error iff the result holds the delimiter, which then ends it and occurs once; otherwise EOF at the first timeout |
| MockIO.Writable.AwaitDelimiter | vendor/github.com/soumya92/barista/testing/mockio/mockio.go:65-79 | the loop computes `Waiting` from the first event; it keeps every byte and stops at the first timeout |
| MockIO.WaitingStops | vendor/github.com/soumya92/barista/testing/mockio/mockio.go:67-78 | the waiting loop consumes no timeout before its last event, and it ends with EOF only at a timeout or at the end of the events |
| MockIO.WaitingUsedBounds | vendor/github.com/soumya92/barista/testing/mockio/mockio.go:67-78 | the waiting loop consumes at least the events it started from and no more than there are |
| MockIO.WaitingKeepsBytes | vendor/github.com/soumya92/barista/testing/mockio/mockio.go:71-77 | what the loop returns followed by what it leaves buffered is everything held before the wait plus all bytes written during it, in order |
| MockIO.WaitingEndsAtDelimiter | vendor/github.com/soumya92/barista/testing/mockio/mockio.go:67-79 | the loop's result ends at the first delimiter when it succeeds, and holds no delimiter when it times out |
| MockIO.Readable.Stdin | vendor/github.com/soumya92/barista/testing/mockio/mockio.go:151-157 | a new stdin stream has an empty buffer |
| MockIO.Readable.Read | vendor/github.com/soumya92/barista/testing/mockio/mockio.go:105-120 | copies min(len(out), buffered) bytes from the front of the buffer into `out`, leaves the rest of `out` alone, removes them from the buffer; EOF is turned into no error |
| MockIO.Readable.Write | vendor/github.com/soumya92/barista/testing/mockio/mockio.go:123-129 | appends all of the data to the buffer, reports its length and no error |
| MockIO.Readable.WriteString | vendor/github.com/soumya92/barista/testing/mockio/mockio.go:135-141 | appends all bytes of the string to the buffer, reports its length and no error |
| MockIO.DelimiterJoinsWrites | vendor/github.com/soumya92/barista/testing/mockio/mockio.go:58-64 | two writes are read through a delimiter in the second one as a single result, and the remainder stays for `ReadNow` |
| MockIO.TimeoutReturnsPartialOutput | vendor/github.com/soumya92/barista/testing/mockio/mockio.go:67-70 | with no delimiter before the timeout, the partial output comes back with EOF, and a later write is still readable after it |
| MockIO.DroppedWakeUpLeavesDelimiter | vendor/github.com/soumya92/barista/testing/mockio/mockio.go:41 | a write whose signal is dropped is not re-read: the timeout returns without the delimiter although it is in the buffer |
| MockIO.ReadsConcatenateWrites | vendor/github.com/soumya92/barista/testing/mockio/mockio_test.go:158-165 | four writes of two bytes each are read back whole by one read of eight bytes, with no error, leaving the buffer empty |
| MockIO.ReadsWhatIsBuffered | vendor/github.com/soumya92/barista/testing/mockio/mockio_test.go:170-184 | a read of four bytes gets the three that one write put there; of a later three-byte write, a one-byte read takes the first byte and a ten-byte read the other two |
| Group.AfterAdd | vendor/github.com/soumya92/barista/modules/group/collapsing.go:63-72 | one more module at the end, visible iff the group is expanded; earlier modules unchanged |
| Group.AfterSetCollapsed | vendor/github.com/soumya92/barista/modules/group/collapsing.go:110-117 | the flag is the one given, the number of modules is the same, and the group is consistent |
| Group.AfterToggle | vendor/github.com/soumya92/barista/modules/group/collapsing.go:88-90 | the flag is flipped and the group is consistent |
| Group.AddKeepsConsistent | vendor/github.com/soumya92/barista/modules/group/collapsing.go:66-70 | adding a module keeps every module visible iff the group is expanded |
| Group.SetCollapsedUnchanged | vendor/github.com/soumya92/barista/modules/group/collapsing.go:80-86 | collapsing a collapsed group, or expanding an expanded one, changes nothing |
| Group.SetCollapsedIdempotent | vendor/github.com/soumya92/barista/modules/group/collapsing.go:110-117 | setting the flag twice is setting it once |
| Group.ToggleTwice | vendor/github.com/soumya92/barista/modules/group/collapsing.go:88-90 | toggling a consistent group twice restores it |
| Group.WrappedModule.SetVisible | vendor/github.com/soumya92/barista/modules/group/collapsing.go:115 | sets the module's visibility |
| Group.Collapsable.Collapsing | vendor/github.com/soumya92/barista/modules/group/collapsing.go:49-51 | a new group is expanded and empty |
| Group.Collapsable.Add | vendor/github.com/soumya92/barista/modules/group/collapsing.go:63-72 | appends a fresh module wrapping the original, visible iff expanded; the state is `AfterAdd` of the old one; consistency is kept |
| Group.Collapsable.Collapsed | vendor/github.com/soumya92/barista/modules/group/collapsing.go:74-78 | reports the flag |
| Group.Collapsable.SetCollapsed | vendor/github.com/soumya92/barista/modules/group/collapsing.go:110-117 | records the flag and makes every module visible iff it is false |
| Group.Collapsable.Collapse | vendor/github.com/soumya92/barista/modules/group/collapsing.go:80-82 | every module hidden, the group collapsed |
| Group.Collapsable.Expand | vendor/github.com/soumya92/barista/modules/group/collapsing.go:84-86 | every module visible, the group expanded |
| Group.Collapsable.Toggle | vendor/github.com/soumya92/barista/modules/group/collapsing.go:88-90 | the state is `AfterToggle` of the old one |
| Group.Collapsable.Button | vendor/github.com/soumya92/barista/modules/group/collapsing.go:92-100 | a fresh button on this group showing the output for its current state |
| Group.ToggleButton.Click | vendor/github.com/soumya92/barista/modules/group/collapsing.go:101-106 | a left click toggles the group and shows the output for its new state; any other button changes nothing |
| Clock.NextTick | vendor/github.com/soumya92/barista/modules/clock/clock.go:111 | for a positive granularity, the first multiple of it strictly after now; for any other granularity, now plus the granularity |
| Clock.ClockModule.New | vendor/github.com/soumya92/barista/modules/clock/clock.go:56-68 | one-second granularity, local time, layout "15:04", one update requested |
| Clock.ClockModule.OutputFunc | vendor/github.com/soumya92/barista/modules/clock/clock.go:70-75 | replaces the output function and requests an update |
| Clock.ClockModule.OutputFormat | vendor/github.com/soumya92/barista/modules/clock/clock.go:77-81 | the output formats each time with the layout; an update is requested |
| Clock.ClockModule.Timezone | vendor/github.com/soumya92/barista/modules/clock/clock.go:83-92 | stores the loaded location or nil; a load error is shown instead of requesting an update |
| Clock.ClockModule.Granularity | vendor/github.com/soumya92/barista/modules/clock/clock.go:94-99 | replaces the granularity and requests an update |
| Clock.ClockModule.Update | vendor/github.com/soumya92/barista/modules/clock/clock.go:101-115 | without a timezone nothing happens; otherwise the output for now in the timezone is shown and the next run is scheduled at `NextTick` |
| MaterialCommunity.ContainsOccurrence | vendor/github.com/soumya92/barista/pango/icons/material_community/material_community.go:54 | `strings.Contains` holds iff the substring occurs at some position of the line |
| MaterialCommunity.TrimLeft | vendor/github.com/soumya92/barista/pango/icons/material_community/material_community.go:63-68 | no longer than the input, and does not start with a rune that is cut |
| MaterialCommunity.TrimLeftDropsOnlyCut | vendor/github.com/soumya92/barista/pango/icons/material_community/material_community.go:63-68 | the result is a suffix, and every rune dropped is one that is cut |
| MaterialCommunity.TrimRight | vendor/github.com/soumya92/barista/pango/icons/material_community/material_community.go:63-68 | no longer than the input, and does not end with a rune that is cut |
| MaterialCommunity.TrimRightDropsOnlyCut | vendor/github.com/soumya92/barista/pango/icons/material_community/material_community.go:63-68 | the result is a prefix, and every rune dropped is one that is cut |
| MaterialCommunity.TrimFunc | vendor/github.com/soumya92/barista/pango/icons/material_community/material_community.go:63-68 | `strings.TrimFunc` is no longer than its input, and begins and ends with runes that are not cut |
| MaterialCommunity.TrimFuncIsMaximalInfix | vendor/github.com/soumya92/barista/pango/icons/material_community/material_community.go:63-68 | `strings.TrimFunc` keeps a contiguous part, drops only cut runes at both ends, and leaves no cut rune at either end |
| MaterialCommunity.TrimFuncIdempotent | vendor/github.com/soumya92/barista/pango/icons/material_community/material_community.go:63-68 | trimming twice is trimming once |
| MaterialCommunity.TrimFuncOfFramed | vendor/github.com/soumya92/barista/pango/icons/material_community/material_community.go:63-68 | a part with no cut rune at either end, framed by cut runes, trims to exactly that part |
| MaterialCommunity.SplitAtFirstColon | vendor/github.com/soumya92/barista/pango/icons/material_community/material_community.go:59-62 | none iff the line has no colon; otherwise the halves joined by a colon give the line, and the first half has no colon |
| MaterialCommunity.ParseIconLine | vendor/github.com/soumya92/barista/pango/icons/material_community/material_community.go:59-74 | a line after the marker is skipped iff it has no colon |
| MaterialCommunity.ParseIconLineAtFirstColon | vendor/github.com/soumya92/barista/pango/icons/material_community/material_community.go:59-73 | for a line made of a colon-free name part, a colon and a value part (further colons allowed), the line fails iff the converted trimmed value is an error, with its message, and otherwise adds the trimmed name with the symbol |
| MaterialCommunity.ParseIconEntry | vendor/github.com/soumya92/barista/pango/icons/material_community/material_community.go:59-74 | an indented map line `"name": hex,` adds exactly `name` with the symbol `hex` converts to, or fails with the conversion's error |
| MaterialCommunity.IconNameIsClean | vendor/github.com/soumya92/barista/pango/icons/material_community/material_community.go:59-65 | an added icon name holds no colon and neither starts nor ends with white space or a quote |
| MaterialCommunity.IconScanner.constructor | vendor/github.com/soumya92/barista/pango/icons/material_community/material_community.go:50 | a new scanner has not seen the marker and has added nothing |
| MaterialCommunity.IconScanner.OnLine | vendor/github.com/soumya92/barista/pango/icons/material_community/material_community.go:52-75 | before the marker: starts iff the line contains `$mdi-icons:`, adds nothing and returns no error; after it: skips, adds one icon, or returns the conversion error, as `ParseIconLine` says; once started it stays started |
| MaterialCommunity.IconScanner.Record | vendor/github.com/soumya92/barista/pango/icons/material_community/material_community.go:69-74 | a failed conversion is returned as the error; an icon is appended to the `add` calls |
| MyBarista.ByteLen | mybarista.go:54-55 | a string's byte length is between its rune count and four times it |
| MyBarista.ByteLenOfRepeat | mybarista.go:54 | n copies of a rune take n times its UTF-8 width |
| MyBarista.Truncate | mybarista.go:27-32 | a string of at most l runes is kept; a longer one becomes its first l-1 runes and an ellipsis, l runes in all; it panics iff it is longer and l < 1 |
| MyBarista.Hms | mybarista.go:34-39 | hours, minutes and seconds add up to the whole seconds (truncated toward zero); minutes and seconds lie strictly between -60 and 60; all three have the sign of the duration |
| MyBarista.QuotOfQuot | mybarista.go:35-37 | whole minutes are whole seconds over 60, and whole hours are whole minutes over 60, with truncation |
| MyBarista.Decimal | mybarista.go:44-46 | at least one digit, all digits; one digit iff below 10; no leading zero except for 0 itself |
| MyBarista.DecimalRoundTrip | mybarista.go:44-46 | the decimal digits of a natural number read back as that number |
| MyBarista.CanonicalIsDecimal | mybarista.go:44-46 | digits without a leading zero are exactly the decimal digits of their value, so `%d` of a natural number is the only such text for it |
| MyBarista.TwoDigitsArePad2 | mybarista.go:44-46 | two digits below 60 are exactly `%02d` of their value |
| MyBarista.Itoa | mybarista.go:44-46 | `%d`: the digits of a non-negative number, with no leading zero except for 0, read back as it; a negative one is a minus sign before the digits of its magnitude, again with no leading zero |
| MyBarista.Pad2 | mybarista.go:44-46 | `%02d`: at least two characters, exactly two from 0 to 99, a leading zero only below 10; the digits read back as the number, after a minus sign with no zero after it when it is negative |
| MyBarista.FormatMediaTime | mybarista.go:41-47 | the display of a non-negative duration reads back, through a reader that accepts only canonical "M:SS" or "H:MM:SS" text, as its whole seconds, with an hour field exactly from one hour on |
| MyBarista.DisplayRoundTrip | mybarista.go:41-47 | the "H:MM:SS" or "M:SS" text chosen for the fields of a non-negative duration reads back as its whole seconds, with an hour field iff at least one hour |
| MyBarista.ThreeFieldsRoundTrip | mybarista.go:44 | "H:MM:SS" reads back as its seconds |
| MyBarista.TwoFieldsRoundTrip | mybarista.go:46 | "M:SS" reads back as its seconds |
| MyBarista.ParseMediaTimeExact | mybarista.go:41-47 | every text the reader accepts is the display of its whole seconds, with an hour field exactly from 3600 seconds on |
| MyBarista.DisplayOfSeconds | mybarista.go:41-47 | the display of a whole number of seconds is its hours, minutes and seconds, in the three-field form iff the hours are positive |
| MyBarista.ParseMediaTimeInjective | mybarista.go:41-47 | two texts that read back as the same time are equal |
| MyBarista.FormatMediaTimeIsTheReading | mybarista.go:41-47 | the display of a non-negative duration is the only text that reads back as its whole seconds |
| MyBarista.NegativeDisplay | mybarista.go:34-47 | a negative duration shows its minus signs: 65 seconds before zero is "-1:-5", and one hour before zero is "0:00" because its hour count is not positive |
| MyBarista.HoursOfNonNegative | mybarista.go:34-46 | a non-negative duration has a positive hour count iff it is at least an hour, and its hours, minutes and seconds add up to its whole seconds |
| MyBarista.DisplayHasNoSlash | mybarista.go:44-46 | a displayed time holds no slash, so the slash in "position/length" separates the two times |
| MyBarista.Times | mybarista.go:59-64 | the times are shown iff the player is playing |
| MyBarista.TimesReadBack | mybarista.go:59-64 | while playing, the text before the first slash reads back as the position's whole seconds and the text after it as the length's |
| MyBarista.MediaFormat | mybarista.go:49-67 | nothing iff the player is stopped or disconnected; otherwise the times are `Times`, and it panics iff the title's budget, 40 minus the byte length of the artist cut to 20 runes, is below 1 and the title is longer than it |
| MyBarista.MediaFormatTitle | mybarista.go:53-54 | a title within the budget is shown whole; a longer one is its first budget-1 runes and an ellipsis, the budget in runes in all |
| MyBarista.MediaFormatArtist | mybarista.go:53-57 | a title under 20 bytes re-cuts the artist to 40 minus its byte length: whole if it fits, else that many runes ending in an ellipsis; a longer title leaves the artist cut to 20 runes |
| MyBarista.WideArtistPanics | mybarista.go:53-54 | for a paused track, an artist of fourteen three-byte runes makes the display panic even with an empty title |
| MyBarista.MediaFormatByRunes | mybarista.go:49-67 | with the budgets in runes: it never panics; nothing iff stopped or disconnected; the title is the title cut to 40 minus the artist's runes, and the artist is re-cut to 40 minus the title's runes when the title is under 20 runes, else cut to 20; so title and artist take at most 40 runes together |
| MyBarista.BatteryStyle | mybarista.go:200-209 | urgent under 5 minutes, bad under 10, degraded under 30, good above 45, and no colour from 30 to 45 minutes inclusive, each iff |
| MyBarista.BatteryStyleMonotone | mybarista.go:200-209 | more remaining time never gives a worse style |

## Findings

| source | as written | input that shows it | evidently intended | confidence | as-written member | corrected member |
|---|---|---|---|---|---|---|
| mybarista.go:53-54 | the title budget `40-len(artist)` subtracts the artist's UTF-8 byte length, but `truncate` counts runes, and `truncate` slices `[:l-1]`, which panics for a budget below 1 | a paused track whose artist is fourteen copies of U+65E5 (42 bytes, 14 runes) and whose title is empty: the budget is -2 and the slice `[:-3]` panics | the budget in runes, so that title and artist share 40 runes | not executed | MyBarista.WideArtistPanics | MyBarista.MediaFormatByRunes |

## Left out

- The mutexes in `Writable`, `Readable`, `collapsable` and the clock module are not modelled. Every operation runs to completion alone.
- The signal channels of the streams are only partly modelled. In `ReadUntil`, `time.After` and the wake-up signal become caller-supplied events. `nonBlockingSignal` is a flag on each write saying whether a reader was waiting.
- Readable.Read: blocking until a write arrives on an empty buffer is not modelled; a read of an empty buffer returns at once with no bytes. The writer's wait in `signalWrite` until its data is consumed is not modelled either.
- MockIO.Writable.AwaitDelimiter: the writes that land while it waits are appended to the buffer inline, not through a call to `Write`.
- Writes that arrive after `ReadUntil` has returned are not part of its events.
- `ReadUntil` is modelled as the code behaves, not as a lossless read. In the code, a write whose wake-up signal finds the reader busy is left in the buffer, so a timeout can return without bytes, or a delimiter, that arrived before it. `DroppedWakeUpLeavesDelimiter` shows this.
- MyBarista.Hms: Go computes all three fields through `float64`: `d.Hours()`, `d.Minutes()` and `d.Seconds()`. The model uses exact integer truncation. Float64 rounding makes a field one too many for a duration just short of a unit boundary: for the hours from about 4096 hours (about 170 days) on, for the minutes from 2^18 minutes (about 182 days), for the seconds from 2^24 seconds (about 194 days).
- Integers are unbounded: the model has no `int64` overflow in durations or in `now.Add(granularity)`.
- `time.Time.Format`, `time.LoadLocation` and `time.Time.In` are not modelled. An output is the layout paired with the instant, and `Timezone` receives the outcome of loading as a parameter.
- `unicode.IsSpace` and `icons.SymbolFromHex` are parameters of the icon line callback. The file reading in `LoadByLines` and the `add` function's provider map are not part of this model; `add` calls are recorded as a list.
- Invalid UTF-8 in strings is not modelled: strings are sequences of Unicode scalar values.
- Pango markup, the media icon and spacers, the battery percentage text and plug icon, and colour schemes are not modelled. The media display is its text fields, and the battery display is its style.
- The scheduler, the `base.Base` plumbing behind `Output`, `Error`, `Schedule` and `OnClick`, and the group's wrapped module outputs are not modelled. The clock records them as effects, and a wrapped module is reduced to its visibility flag.
- The rest of `mybarista.go` is not modelled: the bar setup in `main`, the other modules and the click handlers that start programs.
