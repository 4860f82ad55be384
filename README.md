# GRASS add-ons: four small cores, modelled in Dafny

The model covers four pieces of the GRASS GIS add-ons collection.

- **Draw** (`draw.dfy`) is the r.pi library's Bresenham rasteriser. `swap` exchanges two integers. `draw_point` writes a value into a flat, row-major map of `int` cells when the pen width is 1. `draw_line` walks the major axis of a line and plots one cell per column.
- **L7Met** (`landsat.dfy`, with `cstring.dfy` for the C library calls) is the Landsat 7 `.met` reader of the ETPOT script generator.
  - It reads the file in `fgets` chunks of at most 999 characters.
  - On each chunk it runs `strstr` and `strtok` for `ACQUISITION_DATE`, `WRS_PATH` and `WRS_ROW`, with `atoi` for the date parts and the 80-byte `snprintf` for the path and the row.
  - It builds the `p<path>r<row><yyyymmdd>` base name, with the month and the day zero-padded and the whole name cut to 79 characters.
  - `date2doy` turns the date into a day of the year.
- **ProbMw** (`probmw.dfy`) is the main program of r.pi.prob.mw.
  - It reads the size and distance options with their defaults and counts the moving windows (`nx`, `ny`).
  - It marks the cells equal to `keyval`, and reads the mask map or fills an all-ones mask.
  - It labels every cell with the number of the last fragment that covers it, or -1.
  - It writes the window values centred into output rows. When no window size is given, it prints the single value instead.
- **MetadataEditor** (`editor.dfy`) is the wx.metadata editor.
  - The template cursor: `plusC`, `minusC` and the set-up of `generateGUI`.
  - The sizer indices of a notebook page: `_getIndex` and `addItem`.
  - The name and the path of the exported XML file in `saveToXML`.
  - The flags, the buttons, `setValue`, `getValue` and the check-box toggle of an `MdItem`.
  - The buttons of an `MdBox`.
  - `refreshChkboxes`.

`wrappers.dfy` holds the `Option` and `Result` types.

Code that updates state step by step is modelled as methods:

- `swap`, `draw_point` and `draw_line` on an `array<int>`;
- `strtok` on an `array<char>`, which writes its NUL in place;
- the `fgets` loop over the variables of `main`, as the class `MetReader`;
- the raster loops of r.pi.prob.mw on arrays;
- the editor's objects (`Cursor`, `NotebookPage`, `MdItem`, `MdBox`) as classes whose methods update their fields.

Each method is proved against a function or a predicate. The properties are then lemmas about those:

- the line's endpoints, columns and bounding box;
- `strtok` and `atoi` round trips;
- what a whole metadata line does to the values read;
- fragment precedence;
- output placement;
- the `.xml` naming rule;
- cursor walks;
- fresh, increasing sizer indices;
- the button policies.

## Model

| member | source | states |
|---|---|---|
| Draw.Swap | grass7/raster/r.pi/r.pi.library/draw.c:3-9 | the two values come back exchanged |
| Draw.DrawPoint | grass7/raster/r.pi/r.pi.library/draw.c:11-22 | with width 1 exactly cell `y*sx+x` becomes `val`; with any other width the map is unchanged |
| Draw.Normalize | grass7/raster/r.pi/r.pi.library/draw.c:27-37 | the line is steep exactly when \|dy\| > \|dx\|; after the swaps x1 <= x2 and the deltas are the absolute differences along the major and minor axes; the endpoints map back to the caller's points |
| Draw.NormalizeEndpoints | grass7/raster/r.pi/r.pi.library/draw.c:27-37 | the swaps of draw_line compute exactly Normalize |
| Draw.DrawLine | grass7/raster/r.pi/r.pi.library/draw.c:24-60 | the map afterwards is the old map with every point of the Bresenham walk drawn at pen width `width` |
| Draw.LinePoints | grass7/raster/r.pi/r.pi.library/draw.c:24-60 | the cells draw_line plots, in order: the walk along the normalised line from its first endpoint with the error term starting at deltax / 2; LineEndpoints, LineColumns and LineInBox state its shape |
| Draw.WalkLength | grass7/raster/r.pi/r.pi.library/draw.c:46-59 | the loop from x to x2 plots x2 - x + 1 points |
| Draw.WalkShape | grass7/raster/r.pi/r.pi.library/draw.c:46-59 | each point's major coordinate is one more than the previous one's; the minor coordinate stays in the line's range and moves by 0 or ystep |
| Draw.WalkLast | grass7/raster/r.pi/r.pi.library/draw.c:46-59 | the error term makes the last plotted point the line's far endpoint |
| Draw.LineColumns | grass7/raster/r.pi/r.pi.library/draw.c:39-59 | a line has deltax + 1 points, one per major coordinate in order, the minor coordinate stepping by 0 or ystep |
| Draw.LineEndpoints | grass7/raster/r.pi/r.pi.library/draw.c:24-60 | the first and last points drawn are the two given endpoints, in one order or the other |
| Draw.LineInBox | grass7/raster/r.pi/r.pi.library/draw.c:24-60 | every drawn point lies in the bounding box of the endpoints |
| Draw.GridLineFits | grass7/raster/r.pi/r.pi.library/draw.c:24-60 | endpoints inside an sx-by-sy grid keep every drawn cell index inside the map |
| Draw.LineSymmetric | grass7/raster/r.pi/r.pi.library/draw.c:34-37 | drawing from either end plots the same points |
| Draw.DrawnCells | grass7/raster/r.pi/r.pi.library/draw.c:11-60 | after drawing, a cell holds `val` exactly when some point of the line falls on it, and keeps its old value otherwise |
| Draw.PaintAt | grass7/raster/r.pi/r.pi.library/draw.c:17-19 | painting a list of points sets exactly the cells of those points |
| CString.StrStr | gipe/script_generator/l7_in_read.c:103 | strstr looks only in the buffer's C string, up to its first NUL; a match ends before the NUL; FoundAt and NotFound state which position it returns |
| CString.Strtok | gipe/script_generator/l7_in_read.c:107-115 | strtok from a save pointer keeps the buffer NUL-terminated and of the same length, changes nothing before the save pointer, and returns a token start inside the buffer; StrtokToken and StrtokRun state which token |
| CString.StrtokAt | gipe/script_generator/l7_in_read.c:107-115 | `strtok` from a save pointer: it skips the delimiters, returns the token's start or NULL, writes one NUL after the token and moves the save pointer past it, as Strtok says |
| CString.StrtokToken | gipe/script_generator/l7_in_read.c:107-115 | the token starts at the first non-delimiter, its C string contains no delimiter, and the buffer differs only by the NUL written |
| CString.StrtokRun | gipe/script_generator/l7_in_read.c:107-115 | a run of delimiters, then a token up to a delimiter or NUL, gives exactly that token |
| CString.FoundAt | gipe/script_generator/l7_in_read.c:103 | strstr finds the first occurrence of its key |
| CString.NotFound | gipe/script_generator/l7_in_read.c:103 | a key whose first letter does not occur is not found |
| CString.AbsentAround | gipe/script_generator/l7_in_read.c:118 | a key cannot occur in text where its first letter occurs only at positions followed by a mismatch |
| CString.Atoi | gipe/script_generator/l7_in_read.c:109 | atoi skips leading white space, takes one optional sign and reads the leading digits, 0 without any; AtoiDigits and AtoiDecimal state what it reads back |
| CString.AtoiDigits | gipe/script_generator/l7_in_read.c:109 | atoi reads a run of digits as its decimal value, whatever non-digit follows |
| CString.AtoiDecimal | gipe/script_generator/l7_in_read.c:537 | atoi reads back what `%d` writes, negative numbers included |
| CString.Truncate | gipe/script_generator/l7_in_read.c:124 | `snprintf` into 80 bytes keeps a prefix of at most 79 characters |
| L7Met.CDiv | gipe/script_generator/l7_in_read.c:686 | C division truncates toward zero for negative numerators |
| L7Met.LeapIsDivisibleBy4 | gipe/script_generator/l7_in_read.c:686 | `year/4*4 == year` holds exactly when 4 divides year, negative years included |
| L7Met.MonthOffsetIsRunningSum | gipe/script_generator/l7_in_read.c:647-682 | the case chain's month offsets are the running sums of the month lengths of a 365-day year |
| L7Met.DateToDoy | gipe/script_generator/l7_in_read.c:637-696 | date2doy as written: the month's running offset plus the day, plus one in a leap year once that sum passes 59; DoyInYear, DoyMonotone and LeapDayCollides state its range, order and the leap-day collision |
| L7Met.DoyInYear | gipe/script_generator/l7_in_read.c:637-696 | every valid date gets a day of the year between 1 and the year's length |
| L7Met.DoyMonotone | gipe/script_generator/l7_in_read.c:637-696 | date2doy as written never decreases along the calendar: a date no earlier than another in the same year gets a number no smaller |
| L7Met.LeapDayCollides | gipe/script_generator/l7_in_read.c:689-693 | in a leap year February 29 and March 1 both get day 61 |
| L7Met.DoyAgreesExceptLeapDay | gipe/script_generator/l7_in_read.c:637-696 | date2doy as written agrees with the corrected count on every valid date except February 29 |
| L7Met.DateToDoyFixed | gipe/script_generator/l7_in_read.c:689-693 | the corrected count, which adds the leap day only after February; DoyAgreesExceptLeapDay, DoyFixedOrdered and DoyFixedNextMonth state that it numbers the days 1, 2, ... in order |
| L7Met.DoyFixedOrdered | gipe/script_generator/l7_in_read.c:637-696 | the corrected count lies in the year and orders dates exactly as the calendar does |
| L7Met.DoyFixedNextMonth | gipe/script_generator/l7_in_read.c:637-696 | the corrected count continues from the end of a month to the start of the next and ends on the year's length |
| L7Met.Pad2 | gipe/script_generator/l7_in_read.c:527-536 | the `"0%d"` or `"%d"` print of a month or a day, zero-padded below 10; Pad2RoundTrip states its width and that atoi reads it back |
| L7Met.Pad2RoundTrip | gipe/script_generator/l7_in_read.c:527-536 | a month or day below 100 prints as two digits that atoi reads back |
| L7Met.BaseDate | gipe/script_generator/l7_in_read.c:537 | the base name never exceeds 79 characters |
| L7Met.DateDigits | gipe/script_generator/l7_in_read.c:527-537 | for a four-digit year and a valid month and day the `%d%s%s` tail has eight characters that read back as year, month and day |
| L7Met.BaseDateParts | gipe/script_generator/l7_in_read.c:537 | an uncut base name is `p`, the path, `r`, the row and the eight-digit date, in that order |
| L7Met.DateStep | gipe/script_generator/l7_in_read.c:103-117 | the date step keeps the buffer NUL-terminated and of the same length |
| L7Met.TextStep | gipe/script_generator/l7_in_read.c:118-135 | the path or row step keeps the buffer NUL-terminated and of the same length |
| L7Met.FgetsEnd | gipe/script_generator/l7_in_read.c:100 | an fgets chunk ends after its first newline, at 999 characters or at the end of the file, and advances whenever input remains |
| L7Met.ChunksCoverFile | gipe/script_generator/l7_in_read.c:100 | the chunks concatenate back to the file; each has 1 to 999 characters and no newline before its last character |
| L7Met.MetReader.constructor | gipe/script_generator/l7_in_read.c:57-66 | the date starts at 0/0/0 and the path and row as unset |
| L7Met.MetReader.ScanDate | gipe/script_generator/l7_in_read.c:103-117 | the ACQUISITION_DATE block sets year, month and day, or reports the missing token, as DateStep says |
| L7Met.MetReader.ReadText | gipe/script_generator/l7_in_read.c:118-135 | the WRS_PATH and WRS_ROW blocks read the value token cut to 79 characters, or report the missing token, as TextStep says |
| L7Met.MetReader.ScanLine | gipe/script_generator/l7_in_read.c:103-135 | one pass of the loop body does the three steps in order on the same buffer, as LineStep says |
| L7Met.MetReader.ReadChunk | gipe/script_generator/l7_in_read.c:100-135 | a chunk is scanned in a NUL-terminated buffer, as ChunkStep says |
| L7Met.ReadMet | gipe/script_generator/l7_in_read.c:94-135 | the file opening, the loop over all chunks, the padding and the base name compute ReadMetSpec: an error when the file cannot be opened, a token is missing or the path or row was never read |
| L7Met.MakeScene | gipe/script_generator/l7_in_read.c:527-537 | after the loop an unset path or row is an error; otherwise the scene holds the date and the zero-padded base name, as Finish says |
| L7Met.DateLine | gipe/script_generator/l7_in_read.c:103-117 | an indented `ACQUISITION_DATE = yyyy-mm-dd` line sets the date to those numbers and leaves the path and row alone |
| L7Met.PathLine | gipe/script_generator/l7_in_read.c:118-126 | an indented `WRS_PATH = value` line sets the path to the value cut to 79 characters and changes nothing else |
| L7Met.RowLine | gipe/script_generator/l7_in_read.c:127-135 | an indented `WRS_ROW = value` line sets the row to the value cut to 79 characters and changes nothing else |
| L7Met.PlainLine | gipe/script_generator/l7_in_read.c:103-135 | a line without any of the keywords' first letters changes nothing |
| ProbMw.ReadSettings | grass7/raster/r.pi/r.pi.prob.mw/main.c:169-182 | a given size and distance are taken; a missing size is 0 and a missing distance 1 |
| ProbMw.WindowStarts | grass7/raster/r.pi/r.pi.prob.mw/main.c:221-222 | for a window no larger than the map there are between 1 and s positions, and a start fits exactly when it is below the count |
| ProbMw.DefaultIsOneWindow | grass7/raster/r.pi/r.pi.prob.mw/main.c:221-222 | without a size (0, the default) there is exactly one window in each direction |
| ProbMw.ReadMap | grass7/raster/r.pi/r.pi.prob.mw/main.c:232-240 | a cell becomes 1 exactly when the input holds keyval there; every other cell keeps its value |
| ProbMw.ReadMask | grass7/raster/r.pi/r.pi.prob.mw/main.c:251-277 | with a mask map the mask is that map cell by cell; without one every cell is 1 |
| ProbMw.Label | grass7/raster/r.pi/r.pi.prob.mw/main.c:291-298 | the label a cell ends with after the first k fragments: the number of the last of them that covers it, or -1; LabelNone and LabelIs state both cases |
| ProbMw.LabelFragments | grass7/raster/r.pi/r.pi.prob.mw/main.c:291-298 | every cell is reset to -1, then holds Label: the number of the last fragment covering it |
| ProbMw.LabelNone | grass7/raster/r.pi/r.pi.prob.mw/main.c:291-298 | a label is -1 or a fragment number, and -1 exactly when no fragment covers the cell |
| ProbMw.LabelIs | grass7/raster/r.pi/r.pi.prob.mw/main.c:294-298 | a cell is labelled i exactly when fragment i covers it and no later fragment does |
| ProbMw.CoversStep | grass7/raster/r.pi/r.pi.prob.mw/main.c:295-296 | a fragment's cells up to p + 1 cover a cell exactly when those up to p do or cell p is it |
| ProbMw.CentredPlacement | grass7/raster/r.pi/r.pi.prob.mw/main.c:325-329 | the value of window (i, j) lands in row j + size/2 and column i + size/2 |
| ProbMw.CentredDistinct | grass7/raster/r.pi/r.pi.prob.mw/main.c:325-329 | distinct output cells carry the values of distinct windows |
| ProbMw.WriteOutput | grass7/raster/r.pi/r.pi.prob.mw/main.c:313-343 | without a positive size the result is the single value `values[0]`; otherwise sy rows of sx cells, each the centred window value or null, as Centred says |
| ProbMw.OversizeAllNull | grass7/raster/r.pi/r.pi.prob.mw/main.c:221-222 | a window wider or taller than the map gives no window along that axis, and every output cell is null |
| MetadataEditor.Cursor.constructor | grass7/gui/wxpython/wx.metadata/editor.py:882-884 | the generator starts at item 0, not stopped, with max the number of template items |
| MetadataEditor.Plus | grass7/gui/wxpython/wx.metadata/editor.py:689-698 | the cursor state after plusC: advanced by num (1 when omitted), stepped back one with stop set on reaching max; PlusOneInRange and WalkVisitsEachItem state the walk it gives |
| MetadataEditor.Minus | grass7/gui/wxpython/wx.metadata/editor.py:700-707 | the cursor state after minusC: moved back by num (1 when omitted), stop cleared when the index is at most max; MinusUndoesPlus and MinusResumes relate it to Plus |
| MetadataEditor.Cursor.PlusC | grass7/gui/wxpython/wx.metadata/editor.py:689-698 | the cursor advances by num (1 when omitted); on reaching max it steps back one and stops |
| MetadataEditor.Cursor.MinusC | grass7/gui/wxpython/wx.metadata/editor.py:700-707 | the cursor goes back by num (1 when omitted) and the stop flag clears when the index is at most max |
| MetadataEditor.PlusOneInRange | grass7/gui/wxpython/wx.metadata/editor.py:689-698 | a step of one keeps the index below max and stops exactly on the last item |
| MetadataEditor.WalkVisitsEachItem | grass7/gui/wxpython/wx.metadata/editor.py:888-917 | k steps of one from the start reach item k, and stop exactly after the last item |
| MetadataEditor.MinusUndoesPlus | grass7/gui/wxpython/wx.metadata/editor.py:689-707 | going back by what was added undoes a step that did not reach max |
| MetadataEditor.MinusResumes | grass7/gui/wxpython/wx.metadata/editor.py:700-707 | going back one from inside the list clears the stop flag |
| MetadataEditor.Remove | grass7/gui/wxpython/wx.metadata/editor.py:548-550 | `replace(ch, '')` leaves no ch and does not lengthen the string |
| MetadataEditor.RemoveConcat | grass7/gui/wxpython/wx.metadata/editor.py:548-550 | removing a character distributes over concatenation |
| MetadataEditor.CleanedKeepsOthers | grass7/gui/wxpython/wx.metadata/editor.py:548-550 | the three replacements keep exactly the characters other than newline and the quotes, in order |
| MetadataEditor.KeepOthersAvoids | grass7/gui/wxpython/wx.metadata/editor.py:548-550 | what is kept comes from the input and contains no dropped character |
| MetadataEditor.MdItem.GetValue | grass7/gui/wxpython/wx.metadata/editor.py:545-551 | the value is the escaped text with newlines and both quotes removed and everything else kept in order |
| MetadataEditor.OutputName | grass7/gui/wxpython/wx.metadata/editor.py:102-105 | the exported file's name: the given one or RANDExportMD, with `.xml` appended unless it already ends so in some letter case; NameKeepsGivenName, NameIsXml and NameIdempotent state the rule |
| MetadataEditor.DefaultOutputName | grass7/gui/wxpython/wx.metadata/editor.py:102-105 | without a name the file is `RANDExportMD` with `.xml` appended |
| MetadataEditor.NameIsXml | grass7/gui/wxpython/wx.metadata/editor.py:102-105 | the file name always ends in `.xml` in some letter case |
| MetadataEditor.NameKeepsGivenName | grass7/gui/wxpython/wx.metadata/editor.py:104-105 | a name ending in `.xml` in any case is kept; any other gets exactly `.xml` appended |
| MetadataEditor.NameIdempotent | grass7/gui/wxpython/wx.metadata/editor.py:102-105 | naming a name already made changes nothing |
| MetadataEditor.DefaultNotXml | grass7/gui/wxpython/wx.metadata/editor.py:103-105 | the default name does not already end in `.xml` |
| MetadataEditor.OutputPath | grass7/gui/wxpython/wx.metadata/editor.py:108-111 | the exported file's path: the name joined to the output directory, or to the module's directory when none or an empty one is given; PathEndsInName and PathIsXml state it |
| MetadataEditor.PathEndsInName | grass7/gui/wxpython/wx.metadata/editor.py:108-111 | the path ends in the name, which a relative name places under the output directory, or the module's directory when none or an empty one is given |
| MetadataEditor.PathIsXml | grass7/gui/wxpython/wx.metadata/editor.py:102-111 | the exported path always ends in `.xml` in some letter case |
| MetadataEditor.LowerConcat | grass7/gui/wxpython/wx.metadata/editor.py:104 | lower-casing distributes over concatenation |
| MetadataEditor.NotebookPage.constructor | grass7/gui/wxpython/wx.metadata/editor.py:586-592 | a page starts with index 0, an empty index dictionary and an empty sizer |
| MetadataEditor.NotebookPage.GetIndex | grass7/gui/wxpython/wx.metadata/editor.py:598-604 | the index grows by one and the new value is returned |
| MetadataEditor.NotebookPage.AddItem | grass7/gui/wxpython/wx.metadata/editor.py:606-621 | a single control, or the controls of an outer list whose elements are controls or lists of controls, join the sizer in order and receive the next indices in order, as Assign says |
| MetadataEditor.AssignIndices | grass7/gui/wxpython/wx.metadata/editor.py:598-621 | with distinct ids the k-th control gets index start + k + 1, so the indices are fresh and increase in insertion order; other ids keep their entries |
| MetadataEditor.AssignConcat | grass7/gui/wxpython/wx.metadata/editor.py:606-621 | adding two lists one after the other is adding their concatenation |
| MetadataEditor.MdItem.constructor | grass7/gui/wxpython/wx.metadata/editor.py:329-385 | the item starts invalid and unchecked; its buttons are those of ItemButtons; in the template editor its check box is clear and its text control disabled |
| MetadataEditor.ItemButtons | grass7/gui/wxpython/wx.metadata/editor.py:335-342 | the `+` and `-` buttons an item is created with, from the descriptor's and the given multiplicity, rmMulti and the copy number; ItemButtonPolicy states the policy |
| MetadataEditor.ItemButtonPolicy | grass7/gui/wxpython/wx.metadata/editor.py:333-378 | a later copy never gets `+` and gets `-` exactly when it may repeat or was asked to; the first gets `+` from the given or descriptor multiplicity and `-` when asked |
| MetadataEditor.MdItem.OnChangeChckBox | grass7/gui/wxpython/wx.metadata/editor.py:434-440 | isChecked flips and the text control is enabled exactly when checked; nothing else changes |
| MetadataEditor.MdItem.Refresh | grass7/gui/wxpython/wx.metadata/editor.py:922-929 | the double toggle restores isChecked and leaves the text control enabled exactly when checked |
| MetadataEditor.MdItem.SetValue | grass7/gui/wxpython/wx.metadata/editor.py:501-543 | a real value is shown and validates the item; None, `''` and `$NULL` clear the text; in the template editor they tick and check the item and colour it red (empty) or yellow (`$NULL`) |
| MetadataEditor.MdBox.constructor | grass7/gui/wxpython/wx.metadata/editor.py:160-163 | a box starts with no items and no buttons |
| MetadataEditor.MdBox.AddItems | grass7/gui/wxpython/wx.metadata/editor.py:169-211 | the items join the box in order and the buttons are created as BoxButtons says |
| MetadataEditor.BoxButtons | grass7/gui/wxpython/wx.metadata/editor.py:179-185 | the `+` and `-` buttons a box is given, from multi, rmMulti and the copy number; BoxButtonPolicy states the policy |
| MetadataEditor.BoxButtonPolicy | grass7/gui/wxpython/wx.metadata/editor.py:179-211 | a later box gets `-` and never `+`; the first gets `+` unless the template says no, and `-` when asked |
| MetadataEditor.RefreshChkboxes | grass7/gui/wxpython/wx.metadata/editor.py:919-929 | every item of every descriptor keeps isChecked and ends with its text control enabled exactly when checked; nothing else changes |

## Left out

- Raster and file I/O become values. GRASS row reads and writes, `G_percent`, messages, `fopen` on a real file and the `system` and `snprintf` command strings of the ETPOT script are not modelled. A map is a sequence of rows, and a file is its text, or None when it cannot be opened.
- Parsing command-line options is left out. The `sscanf` of the r.pi.prob.mw options and the `argc` check of l7_in_read.c are outside the model: ReadSettings takes the parsed values or their absence.
- `writeFragments`, `perform_analysis` and the `Coords` layout they share are left out. Their header, local_proto.h, is not part of this model. The fragments come in as a cell list with start offsets, and the window values as a sequence.
- A window larger than the map makes `nx` or `ny` zero or negative. The output loops then read nothing and every row is null, as ProbMw.OversizeAllNull states. The `G_malloc` of `nx * ny` results with such a product and `perform_analysis` are outside the model.
- Floating-point `DCELL` arithmetic is modelled with `real`. The `%lf` print of the single value is left out.
- Overflow of C `int` is not modelled. The row-major index `y * sx + x` and the cell index of draw_point are unbounded integers, and callers must keep them inside the map.
- Draw.DrawPoint: the empty branch for widths above 1 is modelled as leaving the map unchanged, as the source does.
- Only one set of keyword blocks of l7_in_read.c is modelled: `ACQUISITION_DATE`, `WRS_PATH` and `WRS_ROW`.
  - The band file names, the radiance and quantisation limits and the sun angles are left out.
  - They run after the modelled blocks of each line, so they cannot change the values modelled here. A crash inside one of them, from `atof(NULL)` (or `snprintf("%s", NULL)`), is not modelled.
- L7Met: `atoi(NULL)` and `snprintf("%s", NULL)` after a missing token are modelled as the error MissingValue. In C they are undefined. Printing a path or row that was never assigned is the error Unset.
- L7Met.ReadMet reports the date and the base name, not the day of the year. `date2doy`'s result is printed and written into the generated script's `r.mapcalc <basedate>.doy=<doy>` command (l7_in_read.c:474-475 and 582-584). Both are left out with the other `printf` and `system` calls; its wrong leap day is a finding below.
- MetadataEditor.Lower lower-cases ASCII letters only. Python's `str.lower` also folds non-ASCII letters.
- `mdutil.replaceXMLReservedChar` is another module. MdItem.GetValue takes it as a parameter.
- `MdItem` is modelled for items outside a box. The branch of `onChangeChckBox` that toggles every item of the enclosing box is left out, and so is the swallowed exception it can raise.
  - MetadataEditor.RefreshChkboxes is stated for those items.
- wx widgets are left out: layout, tooltips, validators and the widget values themselves. An item's text control is its text, enabled state and colour. A notebook page's sizer is the list of its controls.
- `saveToXML` after the path is out of scope: the Jinja rendering, the file write and the template removal. `os.path.realpath(__file__)` is the parameter moduleDir.
- Duplicating and removing items and boxes is outside this core: `duplicateItem`, `duplicateBox`, `removeItem`, `removeBox` and `addDuplicatedItem`.
- MetadataEditor.MdItem.SetValue tests `value is ''` with Python's identity comparison; the model treats it as equality with the empty string.

## Findings

| source | as written | input that shows it | evidently intended | confidence | as-written member | corrected member |
|---|---|---|---|---|---|---|
| gipe/script_generator/l7_in_read.c:689-693 | one day is added for a leap year whenever offset + day exceeds 59 | February 29 of 2000: 31 + 29 = 60 > 59, so doy = 61, the same as March 1 (59 + 1 + 1) | one day added only for months after February, so that February 29 is day 60 | not executed | L7Met.LeapDayCollides | L7Met.DoyFixedOrdered |
