# SuperClock firmware model

This project models the MicroPython firmware of the SuperClock desk clock.
It is written in Dafny and covers these parts:

- The cooperative kernel (`beeos.py`):
  - a shared key/value `Context`;
  - a timer kernel that sweeps its tasks on every timer tick;
  - a suspend kernel that runs its tasks round-robin;
  - the blinking status LED.
- The tasks and wiring of `bootstrap.py`:
  - the seven-segment LED display task and the temperature/humidity task;
  - the clock task, the beep sequencer and the wake-up watcher;
  - the `Entry` object that registers the tasks and handles the buttons.
- The LED digit screens and colour rules (`led_display.py`).
- The TFT frame buffer and its task (`tft.py`).
- The ST7735 panel driver (`ST7735.py`), modelled as the sequence of SPI frames it sends.
- The button and beeper drivers (`board_driver.py`).
- The RTC helper with its date format and parser (`rtc.py`).
- The logger (`log.py`), the 8x16 bitmap font (`font.py`) and the image converter (`image_tools.py`).

Each source file is a Dafny module of the same name:

- `BeeOS`, `Bootstrap`, `LedDisplay`, `Tft`, `ST7735`, `BoardDriver`;
- `Rtc`, `Log`, `Font`, `ImageTools`.

`Wrappers` holds `Option`/`Result` and byte storage. `Decimal` models `str(int)` and `int(str)`.

How the model is built:

- Classes whose fields the firmware updates are Dafny classes. Their methods have `modifies` clauses and state the new state.
- Behaviour that relates several calls is stated on pure step functions:
  - the kernel sweep (`BeeOS.Sweep`);
  - the task steps (`Bootstrap.LedStep`, `THStep`, `TimeStep`, `BeepStep`, `WakeStep`, `OnBtnStep`);
  - the TFT task tick (`Tft.Tick`).
- The method that runs each step is proved to perform it, and lemmas prove the properties of the step.
- The context stores tagged values (`BeeOS.Value`).
- The tasks require `Typed`: every key the tasks share holds the kind of value its readers expect.
- A task's `loop` is a parameter of the kernels (`LoopFn`). It returns the outcome and the new context.

MicroPython semantics are written out:

- A `bytearray` store keeps the low 8 bits.
- `re`'s `\d` and `\s` match ASCII digits and the six ASCII white-space characters.
- `>>` floors.

## Model

| member | source | states |
|---|---|---|
| BeeOS.Lookup | workSpace/beeos.py:35-38 | `get_var`: the stored value for a present key, the default for a missing one |
| BeeOS.LookupAfterStore | workSpace/beeos.py:35-41 | after `set_var(k, v)`, reading `k` gives `v` and every other key reads as before |
| BeeOS.Context.constructor | workSpace/beeos.py:32-33 | a new context is empty |
| BeeOS.Context.GetVar | workSpace/beeos.py:35-38 | reads the context through `Lookup` |
| BeeOS.Context.SetVar | workSpace/beeos.py:40-41 | stores one key and leaves every other key as it was |
| BeeOS.Register | workSpace/beeos.py:150-151 | a process with a `NAME` is stored under it; one without a name leaves the context unchanged |
| BeeOS.IndexOf | workSpace/beeos.py:135 | the position `list.remove` acts on: it holds the task and no earlier position does |
| BeeOS.RemoveFirst | workSpace/beeos.py:135 | `list.remove` drops the first occurrence of a present task, keeping the order of the others (one fewer, same multiset minus that task), and changes nothing otherwise |
| BeeOS.Visit | workSpace/beeos.py:125-139 | one visit of the timer sweep removes at most one task |
| BeeOS.SweepKeepsTasks | workSpace/beeos.py:123-139 | a sweep loses no task: the tasks left plus the tasks finished are the tasks it started with |
| BeeOS.SweepEvents | workSpace/beeos.py:125-139 | every visited task sees `ticks_ms` set from the clock; `finish` runs exactly for the tasks whose `loop` completed, right after that loop |
| BeeOS.SweepAllRun | workSpace/beeos.py:125-139 | when no task completes, every task runs once, in list order, and the list is unchanged |
| BeeOS.RemoveShifts | workSpace/beeos.py:135 | after the task at position `j` is removed, each later position holds the task from one position further on |
| BeeOS.SweepRunsFrom | workSpace/beeos.py:125-135 | a tick whose iterator stands at position `j` only runs tasks listed at `j` or later |
| BeeOS.SweepSkipsSuccessor | workSpace/beeos.py:125-135 | for any list without repeated tasks: when the task at position `i` completes and is removed during the iteration, the task after it is not run in that tick |
| BeeOS.TurnOff | workSpace/beeos.py:85-90 | `off` leaves the LED on while always-on is set, and off otherwise |
| BeeOS.BlinkPeriod | workSpace/beeos.py:98-106 | after k blinks, the counter is `(count + k) mod interval` and the state has flipped once per full interval |
| BeeOS.BlinkAwsStaysOn | workSpace/beeos.py:85-106 | with always-on set, blinking never turns the LED off |
| BeeOS.StatePin.constructor | workSpace/beeos.py:73-79 | a new pin starts off, interval 1, count 0, not always-on |
| BeeOS.StatePin.On | workSpace/beeos.py:81-83 | state on |
| BeeOS.StatePin.Off | workSpace/beeos.py:85-90 | performs `TurnOff` |
| BeeOS.StatePin.SetBlinkInterval | workSpace/beeos.py:92-93 | only the interval changes |
| BeeOS.StatePin.SetAwsOn | workSpace/beeos.py:95-96 | only the always-on flag changes |
| BeeOS.StatePin.Blink | workSpace/beeos.py:98-106 | performs one `BlinkStep` |
| BeeOS.TimerKernel.constructor | workSpace/beeos.py:113-118 | no tasks, timer not armed |
| BeeOS.TimerKernel.Exec | workSpace/beeos.py:147-155 | a process whose `setup` raises is dropped; otherwise it is registered and appended |
| BeeOS.TimerKernel.RunForever | workSpace/beeos.py:141-142 | arms the timer and leaves the tasks alone |
| BeeOS.TimerKernel.Shutdown | workSpace/beeos.py:144-145 | disarms the timer |
| BeeOS.TimerKernel.Tick | workSpace/beeos.py:123-139 | one timer callback blinks the status LED and performs `Sweep` on the task list and context |
| BeeOS.TimerKernel.RunTasks | workSpace/beeos.py:125-139 | the task loop of `_loop` performs `Sweep` |
| BeeOS.TimerKernel.VisitTask | workSpace/beeos.py:126-139 | one iteration of that loop performs `Visit` |
| BeeOS.Schedule | workSpace/beeos.py:168-181 | the order the suspend kernel visits task indexes in has one entry per pass |
| BeeOS.ScheduleAt | workSpace/beeos.py:180-181 | pass j runs task `(start + j) mod n` |
| BeeOS.ScheduleFair | workSpace/beeos.py:168-181 | any n consecutive passes run each of the n tasks exactly once |
| BeeOS.SuspendKernel.constructor | workSpace/beeos.py:159-162 | no tasks, not running, index 0 |
| BeeOS.SuspendKernel.SetupOs | workSpace/beeos.py:164-165 | sets running |
| BeeOS.SuspendKernel.Shutdown | workSpace/beeos.py:189-190 | clears running, so the loop leaves at its next test |
| BeeOS.SuspendKernel.Exec | workSpace/beeos.py:183-187 | the task is appended before `setup` runs; a raising `setup` leaves it listed but unregistered and reports the error |
| BeeOS.SuspendKernel.BeginRun | workSpace/beeos.py:168 | the task index starts at 0 |
| BeeOS.SuspendKernel.Step | workSpace/beeos.py:169-181 | with no tasks or when stopped nothing happens; otherwise the current task runs once with `ticks_ms` set and the index advances modulo the task count |
| BeeOS.SuspendKernel.Run | workSpace/beeos.py:167-181 | with no tasks or when stopped nothing happens; otherwise k passes follow the round-robin schedule from the current index, leave the context `RunTrace` gives and append exactly its events |
| BeeOS.RunTraceRoundRobin | workSpace/beeos.py:169-181 | event j of k passes is a `loop` of the task at `(start + j) mod n`, seeing `ticks_ms` set to the clock's j-th reading, whatever each task returned |
| BoardDriver.Step | workSpace/board_driver.py:46-58 | an interrupt records the new level and calls back exactly when the level changed, with `(btn, level)` |
| BoardDriver.Replay | workSpace/board_driver.py:46-58 | a run of interrupts keeps one status entry per button |
| BoardDriver.ReplayReportsChanges | workSpace/board_driver.py:46-58 | per button the callbacks report only changes: the first differs from the start level, consecutive ones differ, and the last equals the final level |
| BoardDriver.CallsAppend | workSpace/board_driver.py:46-58 | the callbacks of two runs of interrupts are those of the first followed by those of the second |
| BoardDriver.Buttons.constructor | workSpace/board_driver.py:18-28 | each button's status is its pin level at start; no callback is set |
| BoardDriver.Buttons.Read | workSpace/board_driver.py:30-33 | the level of a button pin; 0 for any other pin |
| BoardDriver.Buttons.Listen | workSpace/board_driver.py:35-44 | registers the callback and changes nothing else |
| BoardDriver.Buttons.OnChange | workSpace/board_driver.py:46-58 | an unknown pin raises; a known one performs `Step`, calling back only while listening |
| BoardDriver.Beep.constructor | workSpace/board_driver.py:72-75 | duty 0, volume 100 |
| BoardDriver.Beep.Volume | workSpace/board_driver.py:77-78 | sets the volume without touching the output |
| BoardDriver.Beep.Enable | workSpace/board_driver.py:80-81 | duty becomes the volume |
| BoardDriver.Beep.Disable | workSpace/board_driver.py:83-84 | duty becomes 0 |
| BoardDriver.Beep.Freq | workSpace/board_driver.py:86-87 | sets the frequency only |
| BoardDriver.Drivers.GetButtons | workSpace/board_driver.py:11-16 | the first call creates the buttons and later calls return the same instance |
| BoardDriver.Drivers.GetBeep | workSpace/board_driver.py:65-70 | the first call creates the beeper (duty 0, volume 100, PWM frequency untouched) and later calls return the same instance |
| Decimal.OfNat | workSpace/bootstrap.py:109-110 | `str(n)` for n ≥ 0 is one or more digits with no leading zero |
| Decimal.OfInt | workSpace/bootstrap.py:89-90 | `str(i)` is all digits exactly when i ≥ 0, else a minus sign followed by digits |
| Decimal.ValueOfNat | workSpace/rtc.py:39-44 | `int(str(n)) == n` |
| Decimal.ValueIgnoresLeadingZero | workSpace/rtc.py:39-44 | `int` ignores a leading zero |
| Log.ExceptionInfo | workSpace/log.py:14-19 | no exception gives the empty text; otherwise the text is `" exception="`, with its leading space, followed by the exception |
| Log.Logger.Log | workSpace/log.py:29-38 | a message below the logger's level prints nothing; otherwise the line is the template filled with the time, the level name, the tag, the message and the exception text |
| Log.NewLogger | workSpace/log.py:25-27 | the tag and level are those given |
| Log.DefaultLevelSuppressesOnlyTrace | workSpace/log.py:25-38 | at the default level DEBUG only `trace` messages are dropped |
| Log.LevelNameInjective | workSpace/log.py:33-36 | two different levels never print the same level name, `USER-n` included |
| Rtc.RtcHelper.constructor | workSpace/rtc.py:7 | the clock holds the given date-time |
| Rtc.RtcHelper.SetTime | workSpace/rtc.py:11-12 | stores the eight-field date-time; the six-field read-back gives the given fields |
| Rtc.RtcHelper.CurrentTimeAsString | workSpace/rtc.py:30-32 | for non-negative fields, `parse` gives back the current six-field time |
| Rtc.Tuple6IgnoresWeekdayAndSubsecond | workSpace/rtc.py:19-27 | the six-field time does not depend on the weekday or sub-second fields |
| Rtc.DigitRun | workSpace/rtc.py:36 | the longest run of leading ASCII digits |
| Rtc.ParseOfShape | workSpace/rtc.py:35-45 | any text of the shape `a-b-c<ws>d:e:f`, with digit groups and one white-space character, parses to those numbers |
| Rtc.ParseSound | workSpace/rtc.py:35-45 | a text that parses has exactly that shape, and its result is the values of its groups |
| Rtc.ParseFormat | workSpace/rtc.py:35-49 | `parse(format(t)) == t` for every time with non-negative fields |
| ST7735.Clamp | workSpace/ST7735.py:10-11 | the value is clamped into `[lo, hi]`; when `hi < lo` the result is `lo`, as `max(lo, min(hi, v))` gives |
| ST7735.TFTColor | workSpace/ST7735.py:14-15 | RGB565 packing: the top 5 bits of red, 6 of green and 5 of blue |
| ST7735.ColorBytes | workSpace/ST7735.py:114-117 | a 16-bit colour goes out as two bytes, high first, that decode back to it |
| ST7735.Repeat | workSpace/ST7735.py:117 | `bytes * n` has n copies and is empty for n ≤ 0 |
| ST7735.InitFrames | workSpace/ST7735.py:196-290 | `initr`: 49 frames starting with the reset pulses, software reset and sleep-out, setting the full window, and ending with display-on and normal mode |
| ST7735.DrawStreamsPixels | workSpace/ST7735.py:119-128 | `_draw` of n pixels sends n div 32 full chunks and a last partial one; its data bytes are n copies of the colour |
| ST7735.DataBytesOfChunks | workSpace/ST7735.py:119-125 | q full chunks carry 32q copies of the colour |
| ST7735.MadctlByte | workSpace/ST7735.py:182-185 | the memory-access byte is the rotation code, with the BGR bit when `rgb` is off |
| ST7735.TFT.constructor | workSpace/ST7735.py:77-90 | no offset, rotation 0, RGB order, nothing sent |
| ST7735.TFT.WriteCommand | workSpace/ST7735.py:165-169 | sends one command frame |
| ST7735.TFT.WriteData | workSpace/ST7735.py:171-175 | sends one data frame with the bytes unchanged |
| ST7735.TFT.On | workSpace/ST7735.py:95-96 | display on or off |
| ST7735.TFT.InvertColor | workSpace/ST7735.py:98-99 | inversion on or off |
| ST7735.TFT.SetMADCTL | workSpace/ST7735.py:182-185 | sends MADCTL and its byte |
| ST7735.TFT.Rgb | workSpace/ST7735.py:101-103 | records the order and resends MADCTL |
| ST7735.TFT.SetWindowLoc | workSpace/ST7735.py:148-163 | column and row windows offset by the panel offset, then RAM write |
| ST7735.TFT.SetWindowPoint | workSpace/ST7735.py:130-146 | a one-pixel window at the point |
| ST7735.TFT.Image | workSpace/ST7735.py:105-107 | the window, then the data |
| ST7735.TFT.VScrollAddr | workSpace/ST7735.py:109-112 | the scroll command with the address in two bytes, high first; an address below 65536 decodes back |
| ST7735.TFT.SetColor | workSpace/ST7735.py:114-117 | stores the colour's two bytes and a 32-pixel chunk of them |
| ST7735.TFT.Draw | workSpace/ST7735.py:119-128 | with no chunk built, a draw that needs one raises; otherwise sends the chunks and the rest |
| ST7735.TFT.PushColor | workSpace/ST7735.py:177-180 | sends the colour's two bytes |
| ST7735.TFT.Reset | workSpace/ST7735.py:187-194 | the reset-pin pulse with its delays |
| ST7735.TFT.InitR | workSpace/ST7735.py:196-290 | sends `InitFrames` |
| ImageTools.As16BitColor | image_tools.py:7-8 | the converter packs a pixel exactly as `TFTColor` does |
| ImageTools.EntriesLayout | image_tools.py:11-19 | entry `x*H + y` is pixel `(x, H-1-y)` as two big-endian bytes |
| ImageTools.FlattenPairs | image_tools.py:20-22 | the file is the entries' bytes in order, two per entry |
| ImageTools.Convert | image_tools.py:11-22 | the file is `2*W*H` bytes laid out as `EntriesLayout` states |
| Font.Codes | workSpace/font.py:10 | the 95 printable ASCII characters in order |
| Font.InCodes | workSpace/font.py:10 | a character is in the table exactly when its code is 32..126 |
| Font.ScanResult | workSpace/font.py:14-21 | the scan finds a listed character, and stops at the last index for any other |
| Font.FindIdx | workSpace/font.py:14-21 | a printable character gives its own index; any other gives the last index |
| Font.FindIdxFound | workSpace/font.py:14-21 | the index of a listed character holds that character |
| Font.FindIdxMissing | workSpace/font.py:14-21 | an unlisted character falls back to the last entry |
| Font.Slice | workSpace/font.py:25 | Python slicing: clipped at the end of the bytes |
| Font.GlyphImageLength | workSpace/font.py:27-41 | a glyph image has `8 * rows * |colour|` bytes |
| Font.GlyphPixelAt | workSpace/font.py:31-40 | the pixel for column i and row ri is the foreground colour exactly when bit i of row `lines-1-ri` is set |
| Font.RenderAppend | workSpace/font.py:43-47 | rendering two strings gives their images one after the other |
| Font.ByteStream.Write | workSpace/font.py:40 | appends the bytes |
| Font.ASCIIFont.constructor | workSpace/font.py:8-12 | holds the file name and the font bytes |
| Font.ASCIIFont.FindFont | workSpace/font.py:23-25 | the 16 bytes at the character's index, clipped to the font |
| Font.ASCIIFont.StrImageAppend | workSpace/font.py:43-47 | the image of a concatenation is the images concatenated |
| Font.ASCIIFont.CharImg | workSpace/font.py:27-41 | appends the glyph image to the given stream, or to a new one when none is given |
| Font.ASCIIFont.WriteGlyph | workSpace/font.py:32-40 | writes the glyph image |
| Font.ASCIIFont.WriteColumn | workSpace/font.py:33-40 | one pass of the outer loop appends column `i`: for each row from the bottom, the foreground bytes when bit `i` is set and the background bytes otherwise |
| Font.ASCIIFont.StrImg | workSpace/font.py:43-47 | a fresh stream holding the image of every character in order |
| LedDisplay.NeoPixel.constructor | workSpace/led_display.py:189-190 | n black pixels, nothing sent |
| LedDisplay.NeoPixel.Write | workSpace/led_display.py:157 | records the current pixels as sent |
| LedDisplay.Seg.constructor | workSpace/led_display.py:23-27 | the segment's pixel buffer and three pixel indexes |
| LedDisplay.Seg.Color | workSpace/led_display.py:29-32 | sets exactly the three pixels of the segment |
| LedDisplay.FixedColorRule.constructor | workSpace/led_display.py:41-44 | every colour is (1, 1, 1) |
| LedDisplay.FixedColorRule.SetColor | workSpace/led_display.py:46-49 | stores the three colours |
| LedDisplay.FixedColorRule.GetColor | workSpace/led_display.py:51-52 | the same three colours for every segment |
| LedDisplay.PaletteIndexes | workSpace/led_display.py:69-100 | each segment picks three of the nine gradient entries; an unknown segment picks entry 0 three times |
| LedDisplay.Rotate | workSpace/led_display.py:102-103 | `roll` moves the first entry to the end and shifts the others one place forward |
| LedDisplay.RotatePermutes | workSpace/led_display.py:102-103 | a roll keeps every entry, as many times as before |
| LedDisplay.RotateTimesSplit | workSpace/led_display.py:102-103 | k rolls give `s[k..] + s[..k]` |
| LedDisplay.FullTurn | workSpace/led_display.py:102-103 | as many rolls as entries give back the gradient |
| LedDisplay.YGradientColorRule.constructor | workSpace/led_display.py:56-67 | nine entries |
| LedDisplay.YGradientColorRule.GetColor | workSpace/led_display.py:69-100 | the colours at `PaletteIndexes` |
| LedDisplay.YGradientColorRule.Roll | workSpace/led_display.py:102-103 | performs `Rotate` |
| LedDisplay.SegmentColors | workSpace/led_display.py:126-137 | the colour `show` asks the rule for segment i is the stored triple under a fixed rule, and under a gradient the three palette entries `PaletteIndexes` names for i |
| LedDisplay.PaintSegmentsAt | workSpace/led_display.py:130-137 | painting the first n segments sets their pixels from the code's bits and leaves every other pixel |
| LedDisplay.ShowDigitAt | workSpace/led_display.py:126-137 | a digit in the table paints its 21 pixels segment by segment; an unknown character changes nothing; pixels outside the screen are untouched |
| LedDisplay.SegScreen.constructor | workSpace/led_display.py:111-121 | seven segments of three pixels from the offset, with the given rule |
| LedDisplay.SegScreen.SetColorRule | workSpace/led_display.py:123-124 | stores the rule |
| LedDisplay.SegScreen.Show | workSpace/led_display.py:126-137 | performs `ShowDigit` on the pixel buffer |
| LedDisplay.SegScreen.PaintOne | workSpace/led_display.py:131-137 | one pass of the loop: segment i takes the rule's colour for i when bit i of the code is set, black otherwise, and the earlier segments stay as painted |
| LedDisplay.ColorSegScreen.constructor | workSpace/led_display.py:141-147 | two segments of three pixels from the offset, with the given rule |
| LedDisplay.ColorSegScreen.SetColorRule | workSpace/led_display.py:149-150 | stores the rule |
| LedDisplay.ColorSegScreen.Show | workSpace/led_display.py:152-157 | colours the six indicator pixels with segments 0 and 1 and writes out |
| LedDisplay.ColorSegScreen.Hide | workSpace/led_display.py:159-162 | blacks out the six pixels and writes out |
| LedDisplay.Shown | workSpace/led_display.py:170-182 | the text is cut to the last digits or left-padded with zeros to the screen count; `None` shows as all zeros |
| LedDisplay.ShowAllAt | workSpace/led_display.py:170-182 | showing digits on disjoint screens sets each pixel from the one screen that covers it and leaves the others |
| LedDisplay.ScreenGroup.constructor | workSpace/led_display.py:166-168 | holds the pixel buffer and the screens |
| LedDisplay.ScreenGroup.Digits | workSpace/led_display.py:170-182 | one digit per screen, at its offset, with its rule's colours; the screens fit and are disjoint |
| LedDisplay.ScreenGroup.Show | workSpace/led_display.py:170-182 | shows the padded text on every screen and writes out twice |
| LedDisplay.ScreenGroup.ShowEach | workSpace/led_display.py:176-180 | shows each character on its screen |
| LedDisplay.ScreenGroup.SetColorRule | workSpace/led_display.py:184-186 | every screen gets the rule and the pixels are untouched |
| Tft.PixelSet | workSpace/tft.py:44-46 | `framebuf.pixel` on RGB565: inside the 80x160 frame the two bytes hold the colour, little-endian; outside nothing changes |
| Tft.PixelSetColor | workSpace/tft.py:44-46 | after a pixel write the pixel reads back its colour and every other pixel is unchanged |
| Tft.ApplyColor | workSpace/tft.py:34-67 | after a run of pixel writes each pixel shows the last write to it, or its old colour |
| Tft.TextPixelAt | workSpace/tft.py:37-46 | the point `(x + ri, y + 8k + i)` of vertical text shows bit `i` of row `rows - 1 - ri` of character `k`'s glyph, whatever the later characters draw |
| Tft.TextBitSet | workSpace/tft.py:34-49 | in vertical text, a set font bit shows the foreground colour at its pixel |
| Tft.TextBitClear | workSpace/tft.py:34-49 | a clear bit shows the background when one is given, and otherwise keeps the old pixel |
| Tft.GlyphWritesWithin | workSpace/tft.py:40-46 | a glyph writes only inside its 8-pixel-wide cell |
| Tft.ImageWrites | workSpace/tft.py:54-65 | one pixel write per byte pair of the file |
| Tft.ImageDecodes | workSpace/tft.py:54-65 | after `image`, pixel j of the file shows its little-endian colour at `(x + j mod w, y + j div w)` |
| Tft.TFTBuf.constructor | workSpace/tft.py:16-20 | a zeroed 80x160 RGB565 buffer |
| Tft.TFTBuf.Show | workSpace/tft.py:22-26 | sends the buffer to window (26, 1)-(105, 160) |
| Tft.TFTBuf.Text8x8H | workSpace/tft.py:28-32 | records the text call |
| Tft.TFTBuf.Pixel | workSpace/tft.py:44 | performs `PixelSet` |
| Tft.TFTBuf.TextV | workSpace/tft.py:34-49 | performs the writes of every glyph, row and bit in order |
| Tft.TFTBuf.Clear | workSpace/tft.py:51-52 | every pixel shows the colour |
| Tft.TFTBuf.FillImg | workSpace/tft.py:69-83 | a file that fits is copied to the start of the buffer and the rest kept; a longer file raises after filling the buffer |
| Tft.TFTBuf.Image | workSpace/tft.py:54-67 | performs one pixel write per byte pair; an odd-length file raises |
| Tft.Text | workSpace/tft.py:145-148 | a text key's value, or the default |
| Tft.ReadValues | workSpace/tft.py:142-149 | each of the six keys, when present, is read as stored, and when missing as its own default (`BC_CLOCK`, `''` for the title and each text, `False` for the flush); backlight and last activity are kept |
| Tft.TickBacklight | workSpace/tft.py:117-127 | an enable request restarts the 20 s backlight timer and is consumed; the backlight is on exactly while the timer has not run out |
| Tft.TickRedraw | workSpace/tft.py:128-131 | a redraw happens exactly when a flush is pending and the backlight is on, and consumes the flush |
| Tft.PendingFlushDrawnOnWake | workSpace/tft.py:116-131 | a flush requested while dark is drawn on the first tick after an enable |
| Tft.Redrawn | workSpace/tft.py:133-137 | the background followed by the three text columns |
| Tft.TFTTask.constructor | workSpace/tft.py:98-110 | the initial fields and a 106x160 panel |
| Tft.TFTTask.Setup | workSpace/tft.py:112-114 | `initr`, then inversion on |
| Tft.TFTTask.ReadValue | workSpace/tft.py:142-149 | performs `ReadValues` |
| Tft.TFTTask.ResetFlush | workSpace/tft.py:151-153 | clears the flush key |
| Tft.TFTTask.Loop | workSpace/tft.py:116-140 | performs `Tick`; without a redraw the buffer, the text log and the panel are untouched; a missing background raises with the buffer unchanged, an oversize one raises with the buffer holding its first `BUF_LEN` bytes, and neither logs a title or sends anything; otherwise draws `Redrawn`, records the title and sends the buffer |
| Bootstrap.LedStepEffect | workSpace/bootstrap.py:40-67 | a step without a flush changes nothing; a flush clears the flag, caches the context's texts, indicator and rule, and redraws each target exactly when its value changed or a force flush is set |
| Bootstrap.LedReflush | workSpace/bootstrap.py:40-67 | flushing the same values again redraws nothing, unless forced, when it redraws all |
| Bootstrap.THStepEffect | workSpace/bootstrap.py:80-95 | a measurement happens only in TH mode, 10 s after the last; it shows temperature and humidity, hides the indicator and flushes; a failed read leaves the context and raises |
| Bootstrap.THSpacing | workSpace/bootstrap.py:85-87 | two measurements are at least 10 s apart |
| Bootstrap.TimeStepUpdates | workSpace/bootstrap.py:102-113 | in clock mode a step writes exactly the two texts, the flush request and the negated indicator; the indicator it negates is the one the context held before the step, because the earlier writes go to other keys |
| Bootstrap.TimeStepEffect | workSpace/bootstrap.py:102-113 | in clock mode the minutes and hours are shown as their decimal text and the indicator flips; otherwise nothing changes |
| Bootstrap.TimeStepFlips | workSpace/bootstrap.py:102-113 | in clock mode one step keeps the mode and negates the indicator |
| Bootstrap.BeepIndexBound | workSpace/bootstrap.py:132-148 | the tone index never passes the sequence end and advances by at most one per step |
| Bootstrap.BeepRestart | workSpace/bootstrap.py:134-148 | a flush loads the queued sequence and plays its first tone at once |
| Bootstrap.BeepExhausted | workSpace/bootstrap.py:140-142 | a finished sequence keeps the beeper silent |
| Bootstrap.BeepPlaysInOrder | workSpace/bootstrap.py:132-148 | the tones play in sequence order, one at most per step |
| Bootstrap.WakeEdge | workSpace/bootstrap.py:165-177 | a change of the wake-up level selects the active or inactive rule and forces a flush; a repeated level changes nothing |
| Bootstrap.OnBtnEffect | workSpace/bootstrap.py:210-222 | every button event queues a beep; only a release of RIGHT changes the mode, to the next one modulo 2 |
| Bootstrap.OnBtns | workSpace/bootstrap.py:210-222 | repeated button events keep the context well typed |
| Bootstrap.ModeStep | workSpace/bootstrap.py:216-220 | with the mode read as `MODE_TIME` when unset, one button event moves it to the next mode modulo 2 exactly when it is a release of RIGHT, and leaves it otherwise |
| Bootstrap.ModeCycles | workSpace/bootstrap.py:216-220 | after a run of button events the mode has advanced once per release of RIGHT, modulo 2 |
| Bootstrap.ButtonStartsBeep | workSpace/bootstrap.py:132-148 | the beep step that follows an `on_btn` call plays, at once, the first tone of the sequence that call queued |
| Bootstrap.Uniform | workSpace/led_display.py:170-182 | one digit per screen of a group: screen `i` shows character `i` at its own offset with the rule's colours; the digits fit the strip and do not overlap |
| Bootstrap.LEDCTLTask.constructor | workSpace/bootstrap.py:25-38 | empty texts, indicator off, the default rule, and the given targets |
| Bootstrap.LEDCTLTask.Loop | workSpace/bootstrap.py:40-67 | performs `LedStep` on the cache and context; after a flush the rule is pushed to every screen; each target shows its new text exactly when `LedStep` says so, otherwise it is untouched |
| Bootstrap.LEDCTLTask.TakeFlush | workSpace/bootstrap.py:41-50 | reads the flag, clears it only when set, and reads the values |
| Bootstrap.LEDCTLTask.Remember | workSpace/bootstrap.py:56-63 | caches each value that was shown |
| Bootstrap.LEDCTLTask.PushRule | workSpace/bootstrap.py:52-54 | every screen gets the rule and no pixel changes |
| Bootstrap.LEDCTLTask.ShowTargets | workSpace/bootstrap.py:56-67 | shows the chosen targets and leaves the others |
| Bootstrap.THSensorTask.constructor | workSpace/bootstrap.py:73-75 | last measurement at 0 |
| Bootstrap.THSensorTask.Loop | workSpace/bootstrap.py:80-95 | performs `THStep` |
| Bootstrap.TimeTask.Loop | workSpace/bootstrap.py:102-113 | performs `TimeStep` on the RTC's current time |
| Bootstrap.BeepTask.constructor | workSpace/bootstrap.py:125-130 | empty sequence, index 0, the shared beeper |
| Bootstrap.BeepTask.Loop | workSpace/bootstrap.py:132-148 | performs `BeepStep`; silence disables the beeper; a tone enables it and sets the frequency |
| Bootstrap.WakeupTask.constructor | workSpace/bootstrap.py:157-163 | last level 0 |
| Bootstrap.WakeupTask.Loop | workSpace/bootstrap.py:165-177 | performs `WakeStep` |
| Bootstrap.NewActiveRule | workSpace/bootstrap.py:152-153 | the active rule is red, green and blue at level 5 for every segment |
| Bootstrap.Entry.constructor | workSpace/bootstrap.py:181-192 | four tasks go to the suspend kernel in order, the clock task goes to the timer kernel, the three named ones are registered, and nothing runs yet |
| Bootstrap.Entry.Start | workSpace/bootstrap.py:194-204 | listens to the buttons, queues the press beep, selects clock mode, starts the suspend kernel at task 0 and arms the timer |
| Bootstrap.Entry.Beep | workSpace/bootstrap.py:206-208 | queues the sequence and sets the beep flush |
| Bootstrap.Entry.OnBtn | workSpace/bootstrap.py:210-222 | performs `OnBtnStep` |
| Wrappers.StoreByte | workSpace/ST7735.py:115-116 | a MicroPython `bytearray` store keeps the value modulo 256 |
| Wrappers.BitSetMask | workSpace/font.py:35 | the bit test used by the font and display code is exactly the 8-bit mask test `r & (0x80 >> i) != 0` |

## Left out

- Hardware access is replaced by recorded state:
  - SPI: the sent frames are kept in `trace`;
  - NeoPixel: the written pixels are kept in `sent`;
  - the PWM, pins, the timer, interrupts and the RTC peripheral become fields.
- Delays, `time.ticks_ms` and time measurement are left out. The kernels take the tick value from a `clock` parameter.
- Printing is left out: `Log.Logger.Log` returns the line it would print, and `sys.print_exception` is dropped.
- The log calls inside the tasks and kernels are left out: they only print.
- A task's behaviour is a `LoopFn` parameter of the kernels. The tasks' own `setup` and `finish` do nothing in the source. Only whether `setup` raises is modelled, as a flag.
- Exceptions raised by a task's `loop` are modelled as the `Raised` outcome of `LoopFn`.
- `KernelApi.get_sn` (the hex of the chip ID) is hardware-only and is not modelled.
- The `Wifi` and `Ap` processes are network code and are not modelled.
- `bootstrap_2.py`, `main.py` and `test_code.py` are not part of this model.
- Bootstrap.THSensorTask.Loop: the DHT11 reading is a parameter (`reading`), with `Err` for a failed measurement.
- Bootstrap.WakeupTask.Loop: the wake-up pin level is a parameter (`value`).
- Bootstrap.LEDCTLTask.constructor:
  - `setup` is folded into the constructor, which takes the two screen groups and the indicator screen as parameters instead of importing the globals;
  - the default colour rule is a parameter too.
- Bootstrap.Entry.Start: the endless `skernel.run_forever()` is not called. `BeeOS.SuspendKernel.Run` models any finite prefix of it.
- The button callback registered by `init_btn` is modelled by calling `Bootstrap.Entry.OnBtn` directly. `BoardDriver.Buttons` records the callback's arguments.
- Bootstrap tasks require `Typed`:
  - every shared key holds the kind of value its readers expect;
  - Python's cross-type `==` (e.g. `1 == True`) never arises under it.
- LedDisplay: the `neopixel` driver and the module-level instances (`group1`, `group2`, `seg_screen`) are parameters, not globals.
- Tft.TFTBuf.Text8x8H: `framebuf.text` is recorded in a call log and not rasterised. Its built-in 8x8 font is not part of this model.
- Tft.TFTBuf.FillImg:
  - requires `w > 0`, because for `w <= 0` the source's read loop never ends;
  - the file's bytes are a parameter instead of a file read.
- Tft.TFTBuf.Image: requires `w > 0` for the same reason.
- Tft.TFTTask.Loop: the backlight pin is modelled only as the `bkl` field, and the background files are a map parameter.
- ImageTools.Convert: image decoding and resizing (PIL) are left out. The resized image is a pixel function parameter.
- Font.FindIdx: the code returns the last table entry for a character that is not in the table, and the model follows the code.
- Rtc.RtcHelper.CurrentTimeAsString: the round trip is stated only for non-negative fields. A negative field formats with a minus sign, which the parser's `\d+` rejects.
