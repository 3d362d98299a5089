# Timetable builder: schedule generation and weekly grid layout

The repository is a small web application for students of a university with
two campuses (Alemania and San Juan Pablo) and a virtual modality. A student
picks up to six courses. The server (`app.py`) lists every combination of one
section/group option per course. For each combination it:

- judges every pair of blocks (weekly meetings) for overlaps and for campus
  travel time;
- allows the configured overlaps with the course BACH1121;
- returns the combinations in three ordered lists.

The browser (`static/app.js`) keeps the selection and the candidate list and
lays the current candidate out as a table. The table has one row per
10-minute slot from 08:00 to 21:00 and one column per weekday. Overlapping
blocks are merged into collision cells.

The model is split into these modules:

- **Records**: a block (course, name, section, group, day label, start and end
  text, campus) and the schedule record the server returns.
- **TimeAxis**: the browser's time axis, `timeToMinutes` (with JavaScript's
  `parseInt`), `normalizeDayName` and the day columns.
- **Placement**: the slot × weekday matrix (`matriz`). It is built by an
  imperative method on an `array2` and specified cell by cell by `Cell`.
- **Grouping**: per day, the distinct blocks, the first-fit overlap groups,
  the collision groups with their extent, and the column index of each block.
- **Render**: the walk over rows and weekdays that emits one `GridCell` per
  position: `Empty`, `Single(block, span)`, `Collision(group, span)` or
  `Covered`. It tracks the rendered blocks and collision groups as sets.
- **Display**: `displaySchedule` end to end, from a candidate's blocks to the
  time column and the grid.
- **Session**: the browser state as a class:
  - the selected courses and the add/remove rules;
  - the candidate list and the index on display, with navigation;
  - the banner counts and their message.
- **Conflicts**: the server's pure predicates: `time_to_minutes` (with
  Python's `int`), `normalize_campus`, `blocks_overlap`, `check_travel_time`
  and `is_valid_topon`.
- **Pairs** and **Combination**: `is_valid_combination`, as a double loop
  proved against a reference definition over all pairs `a < b`.
- **Options**: the group configuration per course and section, and the
  options of each course, including combined groups.
- **Products**: `itertools.product`.
- **Ranking**: the stable sorts.
- **Generator**: `generate_schedules`.
- **Structure**: the section/group grouping of `api_course_structure`.

The data frame behind `get_course_sections` and `get_section_blocks` is a
parameter (`Options.Catalog`): two functions, from a course to its listed
(section, group) rows and from (course, section, group) to its blocks. The
score of `calculate_schedule_score` is a parameter of type
`seq<seq<Block>> -> real`. It is treated as an opaque key. Integers are
unbounded, as in Python. The JavaScript values the model meets are small
integers.

Three behaviours of the code are recorded as lemmas. None is treated as a
defect; the third needs start times off the 10-minute axis.

- A time written as a bare hour, `"9"` or `"9:"`, is 0 minutes on the server
  but 540 in the browser (`Conflicts.ServerAndBrowserOnHour`).
- `check_travel_time` compares `end1 <= start2` before `end2 <= start1`. For
  a block whose end precedes its start, swapping the two blocks can change
  the verdict (`Conflicts.TravelDependsOnOrder`). For proper blocks the
  verdict is symmetric (`Conflicts.TravelSymmetric`).
- A collision group starts at its earliest member's start. If that start is
  not a row of the axis (08:00 plus a multiple of 10 minutes), the group is
  never emitted. Take two overlapping Monday blocks, 08:05-08:40 and
  08:10-08:50. At 08:10 both start in the same cell, so the walk emits no
  cell and marks both rendered. Neither block is ever shown
  (`Display.OffGridLost`, with a concrete pair in `Display.OffGridExample`).

## Model

| member | source | states |
|---|---|---|
| TimeAxis.BuildTimeSlots | static/app.js:366-373 | the axis has exactly 79 labels, label i being the zero-padded "HH:MM" of hour 8 + i/6 and minute 10·(i mod 6) |
| TimeAxis.AddHourSlots | static/app.js:368-372 | one pass of the outer loop appends the six labels of hour h (only "21:00" for h = 21) |
| TimeAxis.SlotLabelMinutes | static/app.js:366-373 | timeToMinutes of label i is 480 + 10·i, so the axis rises in strict 10-minute steps |
| TimeAxis.SlotLabelEnds | static/app.js:366-373 | the first label is "08:00" and the last "21:00" |
| TimeAxis.SlotOfHourMinute | static/app.js:368-371 | the label pushed for hour h and minute 10k sits at row (h-8)·6 + k |
| TimeAxis.PaddedTime | static/app.js:848-852 | a zero-padded "HH:MM" reads back as HH·60 + MM |
| TimeAxis.ParseIntDigits | static/app.js:851 | parseInt of a digit string is its decimal value |
| TimeAxis.TimeToMinutesOfDigits | static/app.js:848-852 | "H:M" with digit parts reads as H·60 + M |
| TimeAxis.TimeToMinutesOfHour | static/app.js:848-852 | a bare hour "H" reads as H·60: missing minutes count as 0 |
| TimeAxis.TimeToMinutesOfHourColon | static/app.js:848-852 | "H:" also reads as H·60, since the empty minute part falls back to 0 |
| TimeAxis.MinutesOfOnePart | static/app.js:850-851 | with an empty minute part the value is hour·60 |
| TimeAxis.MinutesOfTwoParts | static/app.js:850-851 | with both parts numeric the value is hour·60 + minute |
| TimeAxis.SplitHourMinute | static/app.js:850 | splitting "H:M" on ':' gives exactly [H, M] |
| TimeAxis.DayIndexOf | static/app.js:617 | days.indexOf gives -1 or a column whose name equals the argument |
| TimeAxis.DayIndex | static/app.js:616-620 | a block's column, when there is one, is named by its normalised day |
| TimeAxis.DayIndexFound | static/app.js:617-620 | indexOf finds a name exactly when it is one of the five columns |
| TimeAxis.MatchDayResult | static/app.js:869-875 | the first mapping key contained in the lowered label decides: a weekday key gives a column name, otherwise the result is "Sabado" or the trimmed label |
| TimeAxis.MatchedColumn | static/app.js:854-876 | the matched name is a column exactly when the lowered label mentions a weekday |
| TimeAxis.ColumnNameIsWeekday | static/app.js:858-873 | each column name mentions its own weekday key |
| TimeAxis.DayIndexSpec | static/app.js:854-876 | an empty day label goes to Monday; any other lands in a column iff its trimmed, lowered text contains a weekday key, so "Sabado" alone is placed nowhere |
| Placement.Convert | static/app.js:615-618 | a block's placement keeps the block and has a day index in -1..4 |
| Placement.ConvertAll | static/app.js:614 | one placement per block of the schedule, in order |
| Placement.PlaceItem | static/app.js:622-631 | an entry carries the block, its start and end minutes (which bracket the slot), and isStart exactly when no earlier slot is covered |
| Placement.Cell | static/app.js:614-635 | every entry of a cell comes from a block that lands in it |
| Placement.CellStep | static/app.js:614-635 | placing one more block appends its entry to exactly the cells it lands in |
| Placement.CellComplete | static/app.js:614-635 | every block that covers a slot on its column has its entry in that cell |
| Placement.CellExactly | static/app.js:614-635 | a block has an entry in a cell iff it lands there |
| Placement.CoveredBeforeExists | static/app.js:622-631 | isFirst is cleared exactly when an earlier slot was covered |
| Placement.StartIsTop | static/app.js:622-631 | an entry is the start iff the slot above is not covered |
| Placement.OneStartRow | static/app.js:622-631 | only one slot of a block has isStart |
| Placement.PlaceBlocks | static/app.js:608-635 | the array2 built by the loops holds Cell(ConvertAll(blocks), t, d) at every slot t and weekday d |
| Placement.ReadSlot | static/app.js:624 | timeToMinutes of an axis label is that row's minutes |
| Grouping.AddItems | static/app.js:646-655 | scanning a cell extends the day list, keeps ids distinct, adds only the cell's blocks and includes every one of them |
| Grouping.CollectRows | static/app.js:644-657 | the day list has distinct ids, holds only the column's blocks and holds each of them |
| Grouping.ColumnOf | static/app.js:645-646 | the column of weekday d is the matrix's d-th entries, row by row |
| Grouping.FindId | static/app.js:648 | dayBlocks.find(b => b.id === id) succeeds iff the id is present |
| Grouping.AddRow | static/app.js:646-655 | the loop over one cell computes AddItems |
| Grouping.CollectDay | static/app.js:643-657 | the day's collection loop computes DayBlocks of the column |
| Grouping.FirstFit | static/app.js:663-672 | the chosen group is the first one with a member that overlaps (start < other.end and end > other.start); none before it has one |
| Grouping.FindGroup | static/app.js:663-672 | the nested search with its two breaks returns FirstFit |
| Grouping.GroupBlocks | static/app.js:660-680 | the grouping loop returns GroupAll: each block joins its first fitting group or opens a new one |
| Grouping.GroupAllPartition | static/app.js:660-680 | the groups are non-empty and together hold the day's blocks, each as often as it occurs |
| Grouping.GroupAllJoins | static/app.js:663-679 | every member after a group's first overlaps some member placed before it in that group |
| Grouping.GroupAllDistinct | static/app.js:660-680 | with distinct ids in, every id appears in exactly one group position, and only the day's blocks appear |
| Grouping.GroupAllApart | static/app.js:660-680 | pairwise non-overlapping blocks give one singleton group each, in order |
| Grouping.TouchingApart | static/app.js:666 | blocks that only touch (end = start) stay in separate groups |
| Grouping.NotMerged | static/app.js:660-680 | groups are never merged: [0,10), [20,30), [5,25) give [[a, c], [b]] though c also overlaps b |
| Grouping.MinStart | static/app.js:686 | Math.min of the starts: a member's start, at most every start |
| Grouping.MaxEnd | static/app.js:687 | Math.max of the ends: a member's end, at least every end |
| Grouping.CollisionsOfSound | static/app.js:683-688 | every collision group is a group with more than one block, with its min start and max end |
| Grouping.CollisionsOfComplete | static/app.js:683-688 | every group with more than one block becomes a collision group |
| Grouping.CollisionsOfDistinct | static/app.js:683-688 | no block id sits in two collision groups of a day |
| Grouping.AssignColumns | static/app.js:690-699 | each block of each group gets columnIndex = its position and totalColumns = the group size; other ids keep their entries |
| Grouping.AssignGroup | static/app.js:692-698 | one group's pass sets (p, size) for its p-th block and touches nothing else |
| Render.Ceil10 | static/app.js:742-743 | Math.ceil(n / 10): the least r with n ≤ 10r |
| Render.SlotTimeText | static/app.js:716-717 | the time column shows a label exactly at the :00 and :30 rows (every third row) |
| Render.EndsWithTime | static/app.js:716 | a label ends in ":00" or ":30" iff its minute part is "00" or "30" |
| Render.Starting | static/app.js:779-782 | the starting entries are the cell's isStart entries whose block is not yet rendered |
| Render.Continuing | static/app.js:785-788 | the continuing entries are the cell's entries whose block is rendered |
| Render.FindCollision | static/app.js:727-731 | the group found starts at the current minute and is not yet rendered; when none is found, no such group exists |
| Render.RenderCell | static/app.js:723-821 | the cell is exactly CellOf of its entries, the day's collision groups and the rendered state before it, and the new state is After of the same: a collision cell iff an unrendered group starts here, with rowspan ceil((end-start)/10) and all members marked rendered; otherwise, with no entries an empty cell, with exactly one new starting block a cell for it with rowspan ceil(duration/10), with several new starting blocks no cell, with none starting no cell if some entry is rendered and else an empty cell; every starting block is marked rendered |
| Render.RenderRow | static/app.js:715-826 | one row: the time text, and exactly the walk's cells CellAt(t, d) for the five weekdays, starting from the state the rows above left, with the state after them; the walk's invariants kept |
| Render.RenderGrid | static/app.js:711-826 | every cell is exactly CellAt(t, d), the cell of the position-by-position walk (rows in order, weekdays in order) from an empty rendered state; every position obeys the cell rules; distinct positions show disjoint block ids and different collision groups, so no block or group is emitted twice |
| Render.SingleThenCollision | static/app.js:727-770 | a block's entries and any collision group holding it share its weekday, and the group starts no later |
| Render.CollisionsShare | static/app.js:683-688 | two collision groups holding the same id are the same group of the same day |
| Render.NewCellApart | static/app.js:733-800 | a new cell shows no id and no group that an earlier cell showed |
| Render.WalkedAll | static/app.js:715-826 | after the last row every position obeys the cell rules and the cells are pairwise apart |
| Render.CollisionMembersDistinct | static/app.js:683-688 | a collision group lists each id once |
| Render.CellOfShows | static/app.js:727-821 | a single-block cell shows a block that starts there and is not rendered yet; a collision cell's group is one of the day's and starts at that row |
| Render.StateGrows | static/app.js:733-802 | the set of rendered blocks only grows along the walk |
| Display.PlacedIsConverted | static/app.js:614-618 | each placement is that of its own block |
| Display.SameKeySamePlace | static/app.js:614-657 | entries with the same block id sit in the same weekday with the same start |
| Display.OneDayPerId | static/app.js:614-657 | a block id appears under one weekday only |
| Display.DayIdOrigin | static/app.js:644-657 | every grouped id comes from an entry of that day's column |
| Display.OtherDay | static/app.js:642-700 | an id grouped on one day is grouped on no other |
| Display.LayoutDay | static/app.js:643-699 | one day's pass: its groups, its collision groups, and the column info of its blocks |
| Display.LayoutDays | static/app.js:642-700 | for each of the five days the groups and collision groups; the column-info map holds exactly the grouped ids, each with its position and group size |
| Display.CellsWellPlaced | static/app.js:614-635 | entries never precede their block's start; equal ids share day and start |
| Display.CollisionMember | static/app.js:683-688 | a collision group's members come from that day's column and start no earlier than the group |
| Display.LayoutWellFormed | static/app.js:608-700 | the matrix and collision groups displaySchedule builds satisfy what the walk relies on |
| Display.DisplaySchedule | static/app.js:608-829 | the time column, and each cell exactly CellAt of LayoutOf(blocks): the walk over the matrix Cell(ConvertAll(blocks)) and the collision groups of GroupAll of each day; every cell obeys Render's rules and no block id or group shows in two cells |
| Display.SnapshotIsLayout | static/app.js:606-700 | the matrix and the collision groups the method builds are LayoutOf(blocks) |
| Display.CollisionFromInfos | static/app.js:683-688 | a collision group over distinct blocks has at least two members with distinct ids, all among the day's blocks, and starts at the earliest member's start |
| Display.OffGridCollision | static/app.js:644-688 | for the Monday pair 08:05-08:40 and 08:10-08:50, every collision group starts at 08:05 (485 minutes) |
| Display.OffGridNoCollision | static/app.js:727-731 | no collision group of such a layout starts at a row, whatever has been rendered |
| Display.OffGridBoth | static/app.js:776-802 | at 08:10 on Monday both blocks start at once: the walk emits no cell there and both are marked rendered |
| Display.OffGridHidden | static/app.js:715-826 | no cell of such a layout shows either block |
| Display.OffGridLost | static/app.js:608-826 | the pair's blocks appear in no cell of the walk over LayoutOf of the pair |
| Display.OffGridExample | static/app.js:614-618 | two groups of one course with no day label (Monday) at "08:05"-"08:40" and "08:10"-"08:50" form such a pair |
| Session.AddKeepsSelection | static/app.js:398-413 | adding keeps at most six distinct codes; the limit is checked before the duplicate; a refused request changes nothing; the code is present afterwards iff it was already or there was room |
| Session.RemovedSpec | static/app.js:416-417 | filtering keeps exactly the other courses and never grows the list |
| Session.RemovedAppend | static/app.js:417 | the filter distributes over concatenation |
| Session.RemoveKeepsSelection | static/app.js:416-421 | removing keeps the selection at most six with distinct codes |
| Session.RemoveAbsent | static/app.js:416-417 | removing an absent code changes nothing |
| Session.FindCode | static/app.js:404 | selectedCourses.find(c => c.code === code) succeeds iff the code is selected |
| Session.NavigationClamps | static/app.js:833-845 | both moves keep the index in range; prev stays only at 0 and next only at the last index, otherwise each moves by one |
| Session.NavigationRoundTrip | static/app.js:833-845 | next then prev, or prev then next, returns to the index when the first move was possible |
| Session.CountsPartition | static/app.js:501-503 | the three counts add up to the number of schedules |
| Session.ConflictedCountedOnce | static/app.js:501-503 | a schedule with conflicts adds one to the conflict count only, whatever its topones |
| Session.CountsMessageEmpty | static/app.js:505-514 | the banner message is empty exactly when all three counts are zero |
| Session.LoadAlertOfResults | static/app.js:493-516 | a non-empty list shows the counts message, never the empty fallback |
| Session.State.constructor | static/app.js:2-4 | no courses, no schedules, index 0 |
| Session.State.AddCourse | static/app.js:398-413 | the outcome and new selection are AddOutcomeOf/AfterAdd of the old selection; nothing else changes |
| Session.State.RemoveCourse | static/app.js:416-421 | the new selection is Removed of the old one; nothing else changes |
| Session.State.LoadSchedules | static/app.js:493-516 | stores the list, resets the index to 0, and returns the alert text LoadAlert(list) |
| Session.State.PrevSchedule | static/app.js:833-838 | the index becomes PrevIndex of the old index; nothing else changes |
| Session.State.NextSchedule | static/app.js:840-845 | the index becomes NextIndex of the old index for the list's length; nothing else changes |
| Conflicts.PyDigitsOfDigits | app.py:76-77 | int() of a digit string is its decimal value |
| Conflicts.PyIntDigits | app.py:76-77 | int() accepts a digit string and yields its value |
| Conflicts.PyTimeOfDigits | app.py:73-79 | "H:M" with digit parts is H·60 + M |
| Conflicts.PyTimeWithSeconds | app.py:73-79 | a seconds part is ignored: "H:M:S" is H·60 + M |
| Conflicts.PyTimeWithoutColon | app.py:73-79 | a text without ':' fails to parse and gives 0 |
| Conflicts.PyTimeOfHourColon | app.py:73-79 | "H:" fails on the empty minute part and gives 0 |
| Conflicts.PyMinutesOfDigitParts | app.py:75-77 | with digit parts the value is hour·60 + minute |
| Conflicts.ServerAndBrowserOnHour | app.py:73-79 | a bare hour "H" or "H:" is 0 on the server but H·60 in the browser (static/app.js:848-852) |
| Conflicts.CampusOfMention | app.py:61-70 | a text mentioning ALEMANIA or RIVAS (in any case) is ALEMANIA; a San Juan Pablo name without those is SAN_JUAN_PABLO; VIRTUAL or ONLINE without either is VIRTUAL |
| Conflicts.UpperAppend | app.py:62 | upper-casing distributes over concatenation |
| Conflicts.IntervalsShareMinute | app.py:92 | the overlap test is symmetric, and for non-empty intervals holds iff some minute lies in both |
| Conflicts.OverlapMeansSharedMinute | app.py:82-92 | blocks_overlap is symmetric; it is false on different days; on one day a shared minute implies it, and for blocks that are not empty (start before end) it holds iff they share a minute |
| Conflicts.BackToBack | app.py:92 | back-to-back blocks (end1 = start2) never overlap, in either order |
| Conflicts.RequiredGap | app.py:125-130 | the required gap is 30 when either campus is SAN_JUAN_PABLO, otherwise 10 |
| Conflicts.PauseRule | app.py:133-144 | for overlapping intervals the gap check passes; for intervals with start <= end that do not overlap, it fails iff the gap between them is below the requirement; for such intervals, not both empty, swapping the pair mirrors the result |
| Conflicts.TravelRule | app.py:95-144 | (True, None) for different days, a VIRTUAL campus, the same campus or overlapping blocks; otherwise, for proper blocks (start <= end), failure iff the gap is below 30 (SAN_JUAN_PABLO involved) or 10 |
| Conflicts.TravelSymmetric | app.py:95-144 | for proper blocks (start <= end), not both empty, the verdict and its message do not depend on the order of the pair |
| Conflicts.TravelDependsOnOrder | app.py:133-144 | for a block ending before it starts, the order of the pair changes the verdict |
| Conflicts.FirstMatchSpec | app.py:174-199 | no match iff no configuration matches section, day, start and end; otherwise the first matching one decides |
| Conflicts.ToponRules | app.py:147-199 | (False, None) for an empty configuration or when neither block is BACH1121; BACH1121 is taken from the first block if it is that course; 'completo' only when the other block spans the whole BACH1121 meeting |
| Combination.JudgeRules | app.py:217-247 | an overlapping pair is either accepted (iff is_valid_topon allows it) or an overlap conflict; a non-overlapping pair gives a travel conflict iff the travel check fails, and nothing otherwise |
| Combination.ClashOf | app.py:230-247 | a pair's conflict list holds its conflict and nothing else |
| Combination.FoundOf | app.py:224-228 | a pair's found list holds its accepted overlap and nothing else |
| Combination.ExaminePair | app.py:219-247 | examining one pair appends exactly its conflict or its accepted overlap |
| Combination.ExamineRow | app.py:218-247 | the inner loop appends the findings of pairs (i, j) for j > i, in order |
| Combination.ExamineAll | app.py:217-247 | the double loop produces the findings of every pair a < b, in loop order |
| Combination.ConcatBlocks | app.py:209-211 | the combination's blocks are those of its sections, in order |
| Combination.IsValidCombination | app.py:202-249 | returns the conflict and found lists of all pairs a < b, and is valid iff there is no conflict |
| Combination.ConflictsArePairClashes | app.py:202-249 | a conflict is reported iff some pair a < b of the blocks clashes with it |
| Combination.FoundArePairAccepts | app.py:202-249 | an accepted overlap is reported iff some pair a < b yields it |
| Combination.ValidMeansNoClash | app.py:249 | the combination is valid iff no pair a < b clashes |
| Pairs.AllPairsMembers | app.py:217-218 | the pair loop visits each unordered pair a < b exactly as the reference enumeration does |
| Pairs.AllPairsEmpty | app.py:217-218 | the pair loop finds nothing iff no pair a < b yields anything |
| Pairs.BeforeComplete | app.py:217-218 | after row i every pair with first index below i has been examined |
| Pairs.BeforeSound | app.py:217-218 | everything found by row i comes from a pair with first index below i |
| Options.NormalizeGroupConfigs | app.py:344-357 | the loop computes ConfigsOf of the entries |
| Options.LastGroups | app.py:353-357 | the stored groups for a course and section come from the last qualifying entry and number at least two |
| Options.ConfigsOfLookup | app.py:344-357 | looking up a course and section gives the groups of the last entry that has a course, a section and at least two groups for them; a stored course has at least one section |
| Options.GroupTexts | app.py:403 | map(str, groups): one decimal text per group, in order |
| Options.JoinGroupsSplits | app.py:403 | the '+'-joined label splits back into the group texts |
| Options.NoPlusInInt | app.py:403 | no group text contains '+', so the label is unambiguous |
| Options.Pgrus | app.py:380 | available_groups lists the pgru of each row of the section, in order |
| Options.PsecsMembers | app.py:371-376 | the section order lists exactly the sections that have rows |
| Options.PsecsDistinct | app.py:371-376 | each section appears once in the order |
| Options.RowsOfMembers | app.py:371-376 | a section's rows are exactly the listed rows with that section |
| Options.GroupByPsec | app.py:370-376 | the dict's key order is the sections in first-appearance order; each entry holds that section's rows in order |
| Options.BuildIndividual | app.py:424-435 | appends one option per listed group that has blocks, in order |
| Options.BuildSectionOptions | app.py:386-419 | a configured section gives one combined option when all required groups are listed and the blocks are non-empty, and otherwise nothing; an unconfigured section gives one option per listed group with blocks |
| Options.BuildCourseOptions | app.py:363-437 | a course's option list is CourseOptions |
| Options.CourseOptionsSpec | app.py:361-437 | an option is offered iff it has blocks and either a listed group of an unconfigured section with that group's blocks, or the '+'-joined required groups of a configured section, all listed, with their blocks in the required order |
| Options.IndividualMembers | app.py:424-435 | one option per listed group with non-empty blocks, and nothing else |
| Options.SectionOptionsSection | app.py:379-419 | a section's options all carry that section |
| Options.OptionsInOrderMembers | app.py:379-419 | the options of the sections in order are those of the listed sections |
| Options.AvailableInRows | app.py:391 | all required groups are available iff each is listed with the section |
| Products.PrefixAll | app.py:448 | one head in front of every tail, in order |
| Products.ProductSize | app.py:448 | the product has as many combinations as the product of the list lengths |
| Products.PrefixedMembers | app.py:448 | the prefixed lists are exactly a head followed by a tail |
| Products.ProductMembers | app.py:448 | a combination is in the product iff it picks one element of each list, in order |
| Ranking.SortPermutes | app.py:489-491 | the sort keeps every schedule as often as it occurs |
| Ranking.SortOrdered | app.py:489-491 | the sorted list is ordered by (0, -score), or by (number of conflicts, -score) for the conflict list |
| Ranking.SortStable | app.py:489-491 | schedules with equal keys keep their relative order, as list.sort does, including with reverse=True |
| Ranking.InsertPermutes | app.py:489-491 | insertion adds exactly the new schedule |
| Ranking.InsertOrdered | app.py:489-491 | insertion keeps a sorted list sorted |
| Ranking.InsertStable | app.py:489-491 | insertion puts the new schedule behind those with its own key |
| Generator.Evaluate | app.py:450 | the verdict is that of is_valid_combination on the combination's block lists |
| Generator.ScheduleFields | app.py:449-478 | the record holds one section entry per option, all options' blocks, the score, has_conflicts = not valid, has_valid_topones = found non-empty, the messages in order, and the sets of conflict and topon types |
| Generator.ScheduleFlags | app.py:450-473 | has_conflicts iff some pair a < b of its blocks clashes; has_valid_topones iff some pair a < b is an accepted overlap |
| Generator.Classify | app.py:448-486 | the three lists are the built schedules of each bucket, in product order; the conflict list is empty unless conflicts are wanted |
| Generator.Route | app.py:480-486 | each schedule goes to exactly one list: accepted overlaps, clean, or (when wanted) conflicts |
| Generator.CollectSections | app.py:361-437 | the kept option lists are those of the selected courses that have options |
| Generator.GenerateSchedules | app.py:323-499 | returns Generated, the reference result of the whole procedure |
| Generator.GeneratedNothing | app.py:439-441 | no result for a selection in which some course has no option (and none for an empty one by definition) |
| Generator.CourseSectionsKept | app.py:421-437 | the kept lists are exactly the non-empty option lists of the selected courses, in selection order |
| Generator.NonEmptyFull | app.py:439-441 | keeping the non-empty lists keeps all of them iff none is empty, and then keeps the list unchanged |
| Generator.CourseSectionsFull | app.py:421-441 | all courses are kept iff none lacks options, and then in selection order |
| Generator.GeneratedMembers | app.py:439-499 | a schedule is returned iff the selection is non-empty, every course has options, it is the schedule of a product combination, and it has no conflicts or conflicts are wanted |
| Generator.GeneratedCount | app.py:448-499 | with conflicts wanted, every product combination is returned exactly once: the length is the product of the option counts |
| Generator.GeneratedOrder | app.py:488-497 | clean schedules come first, then those with accepted overlaps, then the conflicted; inside each, by score descending, the last by number of conflicts then score |
| Generator.GeneratedStable | app.py:448-497 | inside one list, schedules with equal keys keep product order |
| Generator.BuiltStep | app.py:448-486 | building one more schedule appends it to exactly its bucket |
| Generator.InBucketPartition | app.py:480-486 | the three buckets together hold every schedule once |
| Generator.InBucketMembers | app.py:480-486 | a bucket holds exactly the schedules whose verdict routes them there |
| Generator.SortedMembers | app.py:489-491 | a sorted bucket holds exactly that bucket's schedules |
| Generator.ResultMembers | app.py:493-497 | the concatenated result holds every schedule, except the conflicted ones when they are not wanted |
| Generator.ResultListed | app.py:493-497 | the concatenation of the three sorted lists is in result order |
| Generator.ResultBucket | app.py:493-497 | each list of the result is its bucket, sorted |
| Structure.BuildStructure | app.py:579-587 | the dict's keys are the sections in first-appearance order; each holds that section's distinct groups in first-appearance order |
| Structure.GroupsOfMembers | app.py:581-587 | a section's groups are exactly those listed with it |
| Structure.GroupsOfDistinct | app.py:584-586 | each group is stored once |
| Structure.ApiCourseStructure | app.py:578-597 | the loops return CourseStructure: one entry per section in sorted order, with its groups sorted |
| Structure.SortIntsPermutes | app.py:591-594 | sorted() keeps every value as often as it occurs |
| Structure.SortIntsAscending | app.py:591-594 | sorted()'s result is ascending |
| Structure.SortIntsStrict | app.py:591-594 | sorting a list without repeats gives a strictly ascending list |
| Structure.StructureSections | app.py:578-597 | the sections come strictly ascending, and a section appears iff some row lists it |
| Structure.StructureGroups | app.py:578-597 | each section's groups come strictly ascending, and a group appears iff it is listed with that section |

## Left out

- Flask routes, JSON requests and responses, `send_file` and the
  config.json / consolidado.xlsx files are I/O. The model starts from their
  values.
- The pandas data frame (`load_consolidado`, `get_unique_courses`,
  `get_course_sections`, `get_section_blocks`) is replaced by the
  `Options.Catalog` parameter. Its numeric conversions are assumed done: the
  section and group codes are `int`.
- `calculate_schedule_score` is a parameter. It uses floating point, which
  is not modelled; scores are `real`, and a NaN score does not exist in the
  model.
- `get_file_hash` (an MD5 call) and the debug `print` calls have no model.
- `Generator.ScheduleFields`: `conflict_types` and `valid_topon_types` are
  `list(set(...))` in the source, and their order follows the hash-set
  order. The model keeps them as sets.
- `Generator.ScheduleFields`: the section entry's `str()`/`int()`
  conversions are not modelled. A combined option's group is the `Joined`
  text and a plain option's group is its number.
- `Grouping.CollectRows`: a block id is the tuple (course, section, group,
  start text, day label), not the '_'-joined string. The string form can
  make two different tuples equal when a field contains '_'. That collision
  is not modelled.
- `Render.RenderCell`: cells are `GridCell` values, not HTML. The block
  texts, the 'N/A' placeholders, `courseColorMap` and `getCampusShort` are
  cosmetic and left out.
- `Display.DisplaySchedule` takes the blocks of the current candidate.
  The early return for an empty candidate list, the counter text and the
  enabling of the navigation buttons are DOM work.
- The conflict and topon panels of `displaySchedule` (static/app.js:547-600)
  are HTML building over the server's messages and have no model.
- `Options.GroupConfig` and `Conflicts.ToponConfig` hold the configuration
  values after conversion: the section and group codes as `int`, and the
  topon day and times as text. The source converts them itself with
  `int(section)`, `[int(g) for g in groups]` (app.py:357) and
  `int(topon['section'])` (app.py:175). The ValueError it raises on a
  non-numeric section or group, which fails the request, is not modelled.
- `Strings.Lower` maps ASCII and Latin-1 capitals. `Strings.Upper` maps ASCII
  letters and the seventeen other characters whose upper case in Python
  contains an ASCII letter.
  Other characters are left unchanged. This can differ from JavaScript's and
  Python's full Unicode case mapping, but not where an occurrence of a day or
  campus key is concerned.
- `TimeAxis.ParseInt` models `parseInt` without a radix: leading white space,
  an optional sign, then hexadecimal digits after "0x" or decimal digits.
  NaN is `None`, and arithmetic on it stays `None`.
- `Conflicts.PyInt` models Python's `int()` on optional surrounding white
  space, an optional sign and ASCII digits with single underscores between
  them. Other Unicode digits are not covered.
- `Session.State.AddCourse` and `Session.State.RemoveCourse`: the calls to
  `showAlert`, `updateSelectedList`, `updateCoursesList` and
  `updateGenerateButton` are DOM updates and are left out. `AddOutcome`
  names which alert would be shown.
- `Session.State.LoadSchedules` stands for the success path of
  `generateSchedules` in the browser. The `fetch`, the server's error reply,
  the button state and the `setTimeout` of `showAlert` are left out.
- `sorted()` and `list.sort` are modelled as insertion sorts proved
  permutation-preserving, ordered and stable. Timsort's own steps are not
  modelled; only its result is.
- The configuration screens, the search box, the BACH1121 schedule loader
  and the Excel data tab of static/app.js are DOM and network code.
- verificar_filtrado.py, verificar_cursos.py and read_excel.py are
  diagnostic scripts and are not part of this model.
