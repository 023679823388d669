# RemoteOrganizer layout engine, modelled in Dafny

This project models the layout engine of an Android infrared-remote app:
the `RemoteOrganizer` class. An organizer holds the grid geometry of the
device, a 32-bit mask of stage flags, a list of already-organized buttons
and a row counter. Organizing a remote always sizes the buttons of the
remote's list, then runs these stages on it, each gated by its flag:

- colouring by button category;
- rounding of the power and digit buttons;
- positioning.

Positioning centres a four-column grid on the device. It places a fixed
template of common rows (seven rows, plus two media rows for cable and
blu-ray remotes). It then lays out every remaining button at its list
position, four cells per row. A button with identifier 0 is not placed
and leaves its cell empty. It
appends the organized list back onto the remote and records the content
height and margins in the remote's options.

The model keeps the source's imperative shape. `RemoteOrganizer` is a
class whose methods update its fields and the fields of the `Remote` it
organizes; the loops carry invariants. Each method is proved against a
specification function:

- `PlaceCell`, `PlaceRow`, `PlaceRows`, `UncommonPass` and `PositionPass`
  on a placement state `Layout(remaining, organized, row)`;
- `SizeAll`, `ColorPass`, `CornerPass` and `Styled` on button lists;
- `MaxBottom` for the content height.

Lemmas then state what those functions guarantee:

- Every placed button sits in the cell that names it.
- Conversely, the template organizes the first button carrying each
  identifier it names and leaves any later ones in the remote.
- The remaining buttons are packed in list order, `cols` per row, exactly
  as the reference placement `Spread` describes.
- No button is lost, duplicated or altered except for its position.
- Id-0 buttons are never moved.
- Only the first button carrying an identifier is coloured or rounded.
- The centred margin is within one pixel of centred.

The organizer never clears its organized list or its row counter. A second
pass therefore re-appends every button an earlier pass organized and
starts its template below the earlier rows. `PositionPassKeepsEarlierState`
states this for the model. In the model buttons are values, so a
re-appended button keeps the attributes it had when it was organized. In
the source it is the same object that the later pass restyles and moves
(see "Left out").

Modules:

- `Buttons`: buttons, lookup by identifier, list helpers.
- `Geometry`: the grid, Java's truncating division, the centring margin.
- `Flags`: the stage bits.
- `Styling`: the colour and corner passes.
- `Stages`: the stages that run before positioning, composed.
- `Placement`: rows, the template, the remaining rows, the position pass, the content height.
- `Organizer`: the `Remote` and `RemoteOrganizer` classes.

## Model

| member | source | states |
|---|---|---|
| Buttons.FindId | src/org/twinone/irremote/components/RemoteOrganizer.java:376-378 | a found index is in range and the button there carries the identifier |
| Buttons.FindIdSpec | src/org/twinone/irremote/components/RemoteOrganizer.java:376-378 | the lookup returns the first button carrying the identifier, and nothing exactly when no button carries it |
| Buttons.FindIdFirst | src/org/twinone/irremote/components/RemoteOrganizer.java:376-378 | the lookup finds nothing exactly when no button carries the identifier; otherwise it finds the first of the buttons carrying it, and removing that one leaves the others in order |
| Buttons.WithIdRemove | src/org/twinone/irremote/components/RemoteOrganizer.java:66-74 | removing a button leaves the buttons carrying any other identifier as they were |
| Buttons.RemoveMultiset | src/org/twinone/irremote/components/RemoteOrganizer.java:66-74 | removing a button from the remote takes exactly that button out of the remote's multiset |
| Flags.DefaultStages | src/org/twinone/irremote/components/RemoteOrganizer.java:28-37 | a new organizer runs the icon, position, colour and corner stages and not the text or text-size stages |
| Flags.StageFlagsDistinct | src/org/twinone/irremote/components/RemoteOrganizer.java:28-33 | the six stage flags are distinct single bits that share no bit |
| Flags.AddFlagEffect | src/org/twinone/irremote/components/RemoteOrganizer.java:16-18 | addFlag switches its stage on and leaves every other stage as it was |
| Flags.ClearFlagEffect | src/org/twinone/irremote/components/RemoteOrganizer.java:20-22 | clearFlag switches its stage off and leaves every other stage as it was |
| Geometry.JavaDiv | src/org/twinone/irremote/components/RemoteOrganizer.java:112 | the quotient truncates toward zero: the remainder has the sign of the dividend and is smaller than the divisor in magnitude |
| Geometry.JavaDivAgreesOnNonNegative | src/org/twinone/irremote/components/RemoteOrganizer.java:112 | on a non-negative dividend and positive divisor the truncating quotient is the floor quotient |
| Geometry.JavaDivOnNegative | src/org/twinone/irremote/components/RemoteOrganizer.java:121 | on a negative dividend and positive divisor the truncating quotient equals the floor quotient when the division is exact and is one more otherwise |
| Geometry.CentredWithinOnePixel | src/org/twinone/irremote/components/RemoteOrganizer.java:120-121 | the margin useCols sets leaves a right margin within one pixel of the left one, equal when the free space is even; the margin is negative only when the content is wider than the device |
| Geometry.BlocksWidth | src/org/twinone/irremote/components/RemoteOrganizer.java:458-460 | a button of that many blocks, plus one spacing, is exactly as wide as its blocks |
| Geometry.BlocksHeight | src/org/twinone/irremote/components/RemoteOrganizer.java:465-467 | a button of that many blocks, plus one spacing, is exactly as high as its blocks |
| Geometry.NeighbourGap | src/org/twinone/irremote/components/RemoteOrganizer.java:140-155 | standard-size buttons in neighbouring cells are exactly one grid spacing apart, across and down |
| Organizer.RemoteOrganizer.constructor | src/org/twinone/irremote/components/RemoteOrganizer.java:76-115 | margins start at the minimum margins; the blocks available across are the width left after both margins plus one spacing, divided by the block size and truncated; default flags; nothing organized; row 0 |
| Organizer.RemoteOrganizer.AddFlag | src/org/twinone/irremote/components/RemoteOrganizer.java:16-18 | the new flags are the old ones with the given bits set |
| Organizer.RemoteOrganizer.ClearFlag | src/org/twinone/irremote/components/RemoteOrganizer.java:20-22 | the new flags are the old ones with the given bits cleared |
| Organizer.RemoteOrganizer.SetFlags | src/org/twinone/irremote/components/RemoteOrganizer.java:24-26 | the flags are replaced |
| Organizer.RemoteOrganizer.UseCols | src/org/twinone/irremote/components/RemoteOrganizer.java:120-124 | the left margin centres a grid of that many columns; the blocks available across are exactly the columns' blocks |
| Organizer.RemoteOrganizer.SetButtonPosition | src/org/twinone/irremote/components/RemoteOrganizer.java:140-148 | only the position changes; the offset from the margins is the block offset plus the button offset, both in blocks, times the block size |
| Organizer.RemoteOrganizer.SetButtonSize | src/org/twinone/irremote/components/RemoteOrganizer.java:150-155 | only the size changes; a button plus one spacing fills exactly the requested blocks |
| Organizer.RemoteOrganizer.BlocksWidthPixels | src/org/twinone/irremote/components/RemoteOrganizer.java:458-460 | the width plus one spacing is the given blocks' width |
| Organizer.RemoteOrganizer.BlocksHeightPixels | src/org/twinone/irremote/components/RemoteOrganizer.java:465-467 | the height plus one spacing is the given blocks' height |
| Organizer.RemoteOrganizer.ButtonWidthPixels | src/org/twinone/irremote/components/RemoteOrganizer.java:447-449 | a standard button plus one spacing is as wide as the blocks per button |
| Organizer.RemoteOrganizer.ButtonHeightPixels | src/org/twinone/irremote/components/RemoteOrganizer.java:451-453 | a standard button plus one spacing is as high as the blocks per button |
| Organizer.RemoteOrganizer.StandardButtonsGap | src/org/twinone/irremote/components/RemoteOrganizer.java:140-155 | with the organizer's current grid, standard buttons in neighbouring cells are exactly one spacing apart, across and down |
| Organizer.RemoteOrganizer.SetupNewButton | src/org/twinone/irremote/components/RemoteOrganizer.java:440-445 | a new button gets the standard size, 16 dp corners and a grey background, and keeps everything else |
| Organizer.RemoteOrganizer.SetupSizes | src/org/twinone/irremote/components/RemoteOrganizer.java:264-272 | every button of the remote gets the standard size, in place, and nothing else changes |
| Organizer.RemoteOrganizer.SetColor | src/org/twinone/irremote/components/RemoteOrganizer.java:258-262 | the first button carrying the identifier gets the colour; with no such button nothing changes |
| Organizer.RemoteOrganizer.SetupColor | src/org/twinone/irremote/components/RemoteOrganizer.java:325-374 | the remote's buttons become the colour pass of the old ones |
| Organizer.RemoteOrganizer.SetButtonCornerDp | src/org/twinone/irremote/components/RemoteOrganizer.java:157-161 | the button at the index found gets the corner radius; with no button nothing changes |
| Organizer.RemoteOrganizer.SetupCorners | src/org/twinone/irremote/components/RemoteOrganizer.java:307-323 | the remote's buttons become the corner pass of the old ones |
| Organizer.RemoteOrganizer.MoveToOrganizedList | src/org/twinone/irremote/components/RemoteOrganizer.java:66-74 | the found button leaves the remote and is appended to the organized list; with none nothing changes; the two lists together hold the same buttons |
| Organizer.RemoteOrganizer.PlaceInCell | src/org/twinone/irremote/components/RemoteOrganizer.java:429-435 | one cell of addRow: the placement state becomes PlaceCell of the old state |
| Organizer.RemoteOrganizer.AddRow | src/org/twinone/irremote/components/RemoteOrganizer.java:426-438 | the placement state becomes PlaceRow of the old state: min(ids, cols) cells, then the next row |
| Organizer.RemoteOrganizer.GetRemainingIds | src/org/twinone/irremote/components/RemoteOrganizer.java:389-395 | a new array holding the identifiers of the remote's buttons, in order |
| Organizer.RemoteOrganizer.SliceRow | src/org/twinone/irremote/components/RemoteOrganizer.java:400-404 | a new array of `cols` identifiers from the start index on, 0 past the end |
| Organizer.RemoteOrganizer.AddUncommonRows | src/org/twinone/irremote/components/RemoteOrganizer.java:397-407 | the placement state becomes UncommonPass of the old state: one padded row per `cols` remaining identifiers |
| Organizer.RemoteOrganizer.AddBaseRows | src/org/twinone/irremote/components/RemoteOrganizer.java:233-243 | the seven common rows are placed, in order |
| Organizer.RemoteOrganizer.AddMediaRows | src/org/twinone/irremote/components/RemoteOrganizer.java:247-249 | the two media rows are placed, in order |
| Organizer.RemoteOrganizer.SetupLayout4ColsNew | src/org/twinone/irremote/components/RemoteOrganizer.java:232-253 | the placement state becomes PositionPass of the old state for the remote's type |
| Organizer.RemoteOrganizer.CalculateHeightPx | src/org/twinone/irremote/components/RemoteOrganizer.java:380-387 | the height is the top margin plus the lowest bottom edge, or plus 0 with no buttons: it bounds every button's bottom edge plus the margin and equals one of them, or the margin |
| Organizer.RemoteOrganizer.SetupPosition | src/org/twinone/irremote/components/RemoteOrganizer.java:274-284 | four centred columns; the organized list and row counter are those of the position pass; the remote's list is what is left followed by the organized list; the options record device width, content height and margins |
| Organizer.RemoteOrganizer.Organize | src/org/twinone/irremote/components/RemoteOrganizer.java:208-228 | the remote's buttons are sized, coloured when the colour flag is set and rounded when the corner flag is set; when the position flag is set the position stage follows, otherwise placement state, options and grid are unchanged |
| Organizer.RemoteOrganizer.UpdateWithoutSaving | src/org/twinone/irremote/components/RemoteOrganizer.java:196-203 | a null remote changes nothing; otherwise the remote becomes current and is organized |
| Placement.PlaceCellSpec | src/org/twinone/irremote/components/RemoteOrganizer.java:429-435 | a cell changes nothing exactly when its identifier is 0 or absent; otherwise one button with that identifier leaves the remote and is appended to the organized list at the cell's column of the current row |
| Placement.PlaceCellFacts | src/org/twinone/irremote/components/RemoteOrganizer.java:429-435 | a cell only moves a button: the buttons, up to position, are the same, and the remote's id-0 buttons are untouched |
| Placement.PlaceRowFacts | src/org/twinone/irremote/components/RemoteOrganizer.java:426-438 | addRow advances the row counter by one, only appends to the organized list, places each button in the cell naming it and with a non-zero identifier, and only moves buttons |
| Placement.PlaceRowIgnoresExtraCells | src/org/twinone/irremote/components/RemoteOrganizer.java:428 | identifiers past the column count are never looked at |
| Placement.PlaceRowsConcat | src/org/twinone/irremote/components/RemoteOrganizer.java:245-250 | placing two groups of rows is placing the first group, then the second |
| Placement.PlaceRowsFacts | src/org/twinone/irremote/components/RemoteOrganizer.java:233-250 | a sequence of rows advances the counter by its length, places every newly organized button in the template cell naming it and only moves buttons |
| Placement.PlaceCellById | src/org/twinone/irremote/components/RemoteOrganizer.java:429-435 | a cell naming another identifier leaves the buttons carrying a given one as they were; a cell naming it takes the first of them to the cell and leaves the rest in order |
| Placement.PlaceCellsSkip | src/org/twinone/irremote/components/RemoteOrganizer.java:428-436 | cells that do not name an identifier leave the buttons carrying it as they were |
| Placement.PlaceRowsSkip | src/org/twinone/irremote/components/RemoteOrganizer.java:233-250 | rows that do not name an identifier leave the buttons carrying it as they were and only extend the organized list |
| Placement.PlaceRowById | src/org/twinone/irremote/components/RemoteOrganizer.java:426-438 | a four-cell row naming an identifier in one cell takes the first button carrying it to that cell of the current row and leaves the others |
| Placement.TemplatePositionAgrees | src/org/twinone/irremote/components/RemoteOrganizer.java:233-250 | every non-zero template cell is where an independent table of template positions puts its identifier; every template row has four cells |
| Placement.TemplateIdsUnique | src/org/twinone/irremote/components/RemoteOrganizer.java:233-250 | the template names each non-zero identifier in one cell only |
| Placement.TemplateTakesFirstMatch | src/org/twinone/irremote/components/RemoteOrganizer.java:233-250 | with four columns, for each identifier the template names, the first button of the remote carrying it is organized at that cell, rows counted from the current row, and the other buttons carrying it stay in the remote; with no such button, none stays |
| Placement.TemplateLeavesNoTemplateId | src/org/twinone/irremote/components/RemoteOrganizer.java:233-250 | with four columns, on a remote whose non-zero identifiers are distinct, no button carrying an identifier the template names is left in the remote |
| Placement.TemplateRowCount | src/org/twinone/irremote/components/RemoteOrganizer.java:233-250 | the template takes nine rows for cable and blu-ray remotes and seven otherwise |
| Placement.RowCount | src/org/twinone/irremote/components/RemoteOrganizer.java:399 | one row fewer than the count does not hold all identifiers at `cols` per row, and the count does |
| Placement.RowCountBounds | src/org/twinone/irremote/components/RemoteOrganizer.java:399 | the loop index starts a row exactly while it is below the identifier count, so the loop runs RowCount times |
| Placement.UncommonPassEffect | src/org/twinone/irremote/components/RemoteOrganizer.java:397-407 | afterwards the remote keeps exactly its id-0 buttons in order; every other remaining button, in list order, is organized at column j mod cols of row j div cols below the current row; the counter advances by the row count |
| Placement.FreshPositionPass | src/org/twinone/irremote/components/RemoteOrganizer.java:274-278 | on a new organizer: the template takes 7 or 9 rows; each button the template organized sits in the cell naming it; the remote ends with its id-0 buttons, then the template buttons, then the other buttons spread below; no button is lost or changed except in position |
| Placement.FreshRemainder | src/org/twinone/irremote/components/RemoteOrganizer.java:252 | on a new organizer, after the template, the remote keeps its id-0 buttons and every other remaining button is spread below the template |
| Placement.PositionPassContents | src/org/twinone/irremote/components/RemoteOrganizer.java:232-253 | a position pass keeps the multiset of buttons, positions aside |
| Placement.PositionPassSize | src/org/twinone/irremote/components/RemoteOrganizer.java:278 | after a pass the remote holds its own buttons plus every button organized before |
| Placement.PositionPassShape | src/org/twinone/irremote/components/RemoteOrganizer.java:278 | after a pass the remote lists its id-0 buttons, then the organized list as the template left it, then the spread buttons |
| Placement.PositionPassKeepsEarlierState | src/org/twinone/irremote/components/RemoteOrganizer.java:230 | the template starts at the row the previous pass stopped at, and the remote ends with the earlier organized buttons re-appended after its id-0 buttons, as they were when organized |
| Placement.MaxBottomIsMaximum | src/org/twinone/irremote/components/RemoteOrganizer.java:381-385 | the running maximum is at least 0 and every bottom edge, and is 0 or one of them |
| Styling.StyleById | src/org/twinone/irremote/components/RemoteOrganizer.java:258-262 | restyling by identifier keeps the identifiers; with no matching button the list is unchanged, otherwise only the first match is restyled |
| Styling.ApplyTableEffect | src/org/twinone/irremote/components/RemoteOrganizer.java:338-372 | applying a table of same-kind styles restyles the first button of each listed identifier with that identifier's last style and leaves every other button alone |
| Styling.StylePassEffect | src/org/twinone/irremote/components/RemoteOrganizer.java:325-374 | after a default-then-table pass, the first button of each listed identifier has its style, every other button the default, and only the styled attribute changes |
| Styling.ColorTableMatchesCategories | src/org/twinone/irremote/components/RemoteOrganizer.java:331-372 | the colour table gives each identifier its category's colour and nothing to uncategorised identifiers |
| Styling.CornerTableIsRoundIds | src/org/twinone/irremote/components/RemoteOrganizer.java:311-321 | the corner table gives 400 dp to power and the ten digits and nothing to any other identifier |
| Styling.ColorPassEffect | src/org/twinone/irremote/components/RemoteOrganizer.java:325-374 | after the colour pass the first button of each categorised identifier has its category's colour, every other button is transparent, and only backgrounds change |
| Styling.CornerPassEffect | src/org/twinone/irremote/components/RemoteOrganizer.java:307-323 | after the corner pass the first power button and the first of each digit have 400 dp corners, every other button 16 dp, and only corner radii change |
| Stages.StyledEffect | src/org/twinone/irremote/components/RemoteOrganizer.java:211-216 | the stages before positioning keep each button's identifier, position and order, give it the standard size, and give it the background and corners of the colour and corner passes exactly when their flags are set |

## Left out

- Android lookups are not modelled. The device width, the minimum margins, grid sizes, spacings and blocks per button come from the window manager and app resources; here they are constructor parameters.
- Logging is not modelled.
- dp-to-pixel conversion is left out, because it is floating point on the display density. The model records the corner radius in dp, as setupCorners passes it (16 or 400).
- The icon, text and text-size stages, `addIcons`, and the text size that `setupSizes` also sets are left out. They read lookups in ComponentUtils, which is not part of this model, and write attributes this model does not hold.
- Persistence is not modelled: `updateAndSave`, `updateAndSaveAll`, and loading and saving remotes.
- `mTrackHeight` is not modelled: it is written and never read.
- Button identifiers, background colours and remote types are placeholder values. Button.java and Remote.java are not part of this model. The proofs rely only on 0 meaning "no button" and on the named identifiers being distinct.
- Buttons are values. Object identity, aliasing between the remote's list and the organized list, and null entries in either list are not modelled.
- `removeButton` is modelled as removal at the index the lookup returned.
- Remote.getButtonById is not part of this model. The model takes it to return the first button carrying the identifier, or none (Buttons.FindId). Every "first button carrying an identifier" statement, such as which button is coloured or rounded, rests on that reading.
- Organizer.RemoteOrganizer.constructor requires a non-zero block width. The source divides by it and throws ArithmeticException when it is 0; exceptions are not modelled.
- Placement.PositionPassKeepsEarlierState states that the re-appended buttons are the earlier organized buttons as they were when organized. That holds only in the model, where buttons are values. In the source the organized list holds the same objects as the remote's list. A later pass restyles and re-places those objects, so the re-appended entries show the later pass's attributes. Only their identifiers and their order carry over to the source.
- Integers are unbounded; 32-bit overflow of pixel arithmetic is not modelled. Button.java is not part of this model, so the cast in calculateHeightPx is taken as acting on integers.
- Organizer.RemoteOrganizer.SetupColor applies its overrides by a loop over a constant table instead of 30 explicit calls. The order is the source's order.
- Organizer.RemoteOrganizer.SetupCorners applies its overrides by a loop over a constant table instead of 11 explicit calls. The order is the source's order.
- Organizer.RemoteOrganizer.AddUncommonRows requires at least one column. With none, the source's loop never advances; its only caller sets four columns first.
- Organizer.RemoteOrganizer.AddRow models only the `includeUncommon = false` form. The `true` form has no caller.
- Organizer.RemoteOrganizer.MoveToOrganizedList moves one button, given by the index the lookup returned, not a variable number of buttons.
- Organizer.RemoteOrganizer.SetButtonCornerDp takes the index the lookup returned (none for a missing button) instead of a possibly null button.
- PlaceInCell, SliceRow, AddBaseRows and AddMediaRows are the bodies of addRow's inner step, of addUncommonRows' row copy and of setupLayout4ColsNew's row calls, split out as methods.
