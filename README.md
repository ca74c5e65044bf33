# VerbaleIspezione, modelled in Dafny

VerbaleIspezione produces inspection reports ("verbali di ispezione") for a
construction-supervision office. It has two front ends, and this project
models the logic of both:

- a React web form. It fills in the report fields, the checkbox groups and
  a list of photos, and renders a PDF. A post-processing hook then stamps
  footers and appends the photo pages;
- a Python desktop tool. It keeps the same form and a photo list, saves the
  form between sessions, and fills a Word template.

The model has one Dafny module per core source file (two for the PDF hook and for the reference document), plus two shared modules:

- `Util`: Option type, decimal text, `Math.ceil`/`Math.round`/`int()` and JavaScript `%`, Python `strip`.
- `FormRules` (src/App.tsx, src/pages/FormPage.tsx): checkbox groups as insertion-ordered key lists, object-spread update, required-field check (`validateForm`, the same in src/App.tsx:80-106 and src/pages/FormPage.tsx:81-107, is modelled once).
- `AppForm` (src/App.tsx): initial state, plain toggle, input change.
- `FormPage` (src/pages/FormPage.tsx): the same with an exclusive responsible-role group and the photo list.
- `CompressionConfig` (src/config/imageCompression.ts): the four compression presets.
- `HeaderSelection` (src/hooks/useHeaderSelection.ts): the two branding configurations and the chosen one.
- `Translation` (src/hooks/useTranslation.ts): the Italian/English table, `t`, `changeLanguage`.
- `ReferenceDocument` (Reference/PDFDocument.tsx): translation and label fallbacks, role listing, checkbox rows, page estimate.
- `InlineMarkup` (Reference/PDFDocument.tsx): `renderFormattedText` / `parseSegments`.
- `PdfWithFooter` (src/hooks/usePDFWithFooter.ts): footers, appendix pages, photo placement and captions; a `PdfDocument` class whose page list the passes update.
- `WordWrap` (src/hooks/usePDFWithFooter.ts): `wrapTextToLines`.
- `ImageManager` (src/components/ImageManager.tsx): adding, rotating, captioning, removing and moving photos; preview and summary texts.
- `ImageCompression` (src/utils/imageCompression.ts): target size, output format, batch helpers.
- `SummaryDocument` (src/components/PDFDocument.tsx): selected-option listing and camel-case labels.
- `DocxGenerator` (src/References/docx_generator.py): placeholder lookup, `normalize_text`, the `<b>/<i>/<u>` tag scanner, nearest check box, photo sizing, `format_caption`.
- `FormInterface` (src/References/form_interface.py): the window's state as a `FormApplication` class (photo list, selection, rotation, preview cache), serial number, saved record, rich-text serialisation.

Code that loops or updates state is written as methods with loop
invariants, or as classes with `modifies` clauses. Each such method is
proved against a specification function. Pure expressions are written as
functions, with lemmas about them.

Some things the code relies on but cannot compute are passed in as
parameters:

- the current date;
- fresh photo ids;
- the font's width measure;
- decoded image sizes;
- the success or failure of loading an image.

Two behaviours of the code are easy to misread; the model follows the code
as written:

- the text-replacement skip list in src/References/docx_generator.py:283-286
  names twelve check-box options, not thirteen;
- the web form in src/App.tsx toggles the responsible-role group like any
  other group, so that group is not exclusive there.

## Model

| member | source | states |
|---|---|---|
| Util.NatToString | src/References/form_interface.py:401 | Python's `str()` of a count gives at least one digit and no leading zero |
| Util.NatToStringRoundTrip | src/References/form_interface.py:401 | the decimal text of a count reads back as that count |
| Util.PadZeros | src/References/form_interface.py:268 | zero padding to a width keeps the digits at the end and puts only zeros in front |
| Util.CeilDiv | src/hooks/usePDFWithFooter.ts:145 | `Math.ceil(a / b)`: the least number of groups of `b` that hold `a` |
| Util.RoundHalfUp | src/utils/imageCompression.ts:56-57 | `Math.round` lies within one half of its argument |
| Util.JsRem | src/components/ImageManager.tsx:60-61 | JavaScript's `%` keeps the sign of the dividend and agrees with the modulus on non-negative numbers |
| Util.Filter | src/References/docx_generator.py:259 | filtering keeps only characters that pass the test and never lengthens the text |
| Util.FilterAppend | src/References/docx_generator.py:259 | filtering works piece by piece |
| Util.PyStrip | src/References/form_interface.py:568-569 | `strip()` never lengthens a text, and what it leaves neither starts nor ends with whitespace |
| Util.PyStripRight | src/References/docx_generator.py:959-965 | `rstrip()` leaves a prefix that does not end with whitespace and keeps a non-space first character |
| FormRules.OnKeysSound | src/components/PDFDocument.tsx:266-268 | with distinct keys, a key is listed among the ticked options exactly when its flag is true |
| FormRules.Set | src/App.tsx:128-131 | the object spread sets the key to the value, leaves every other key's value alone, keeps an existing key in place and appends a new one |
| FormRules.SetSet | src/App.tsx:128-131 | a second write to the same key overrides the first |
| FormRules.Toggle | src/App.tsx:128-131 | the named flag's truthiness is inverted and every other key keeps its value |
| FormRules.ToggleTwice | src/App.tsx:128-131 | toggling a key already present twice gives the group back |
| FormRules.AllOff | src/pages/FormPage.tsx:128-131 | clearing keeps the keys, in order, and leaves nothing ticked |
| FormRules.SelectOnly | src/pages/FormPage.tsx:128-132 | after an exclusive choice the chosen key is ticked and no other key is |
| FormRules.SelectOnlyCountsOne | src/pages/FormPage.tsx:128-132 | exactly one flag is true after an exclusive choice, and the listing shows that key alone |
| FormRules.SelectOnlyIdempotent | src/pages/FormPage.tsx:128-132 | choosing the same key twice gives the same group as choosing it once |
| FormRules.ValidateRequired | src/App.tsx:80-106 | valid iff every required field is present and non-empty; errors hold exactly the missing or empty ones, each with "Campo obbligatorio" |
| AppForm.InitialState | src/App.tsx:46-76 | at start only `strutture` is ticked among the roles, only `visivo` and `conforme` in the other groups, and every required field is filled once the date is |
| AppForm.WithSection | src/App.tsx:124-126 | the spread replaces the named group with the new one and leaves the other groups and the text fields unchanged |
| AppForm.HandleCheckboxChange | src/App.tsx:123-131 | the named flag of the named group is flipped; every other flag, every other group and the text fields are unchanged |
| AppForm.CheckboxTwiceRestores | src/App.tsx:123-131 | the same change applied twice restores the form |
| AppForm.RolesNotExclusive | src/App.tsx:123-131 | the role group is not kept exclusive: from the start one change leaves two roles ticked and another leaves none |
| AppForm.HandleInputChange | src/App.tsx:116-122 | only the field named by the input changes, and it takes the value |
| FormRules.ValidateForm | src/App.tsx:80-106 | valid iff all ten required fields are filled; "Campo obbligatorio" is recorded for exactly the empty ones |
| FormPage.InitialState | src/pages/FormPage.tsx:46-77 | at start only `DLS` is ticked among the roles, only `visivo` and `conforme` elsewhere, there are no photos, and every required field is filled once the date is |
| FormPage.WithSection | src/pages/FormPage.tsx:125-127 | the spread replaces the named group with the new one and leaves the other groups, the text fields and the photos unchanged |
| FormPage.HandleCheckboxChange | src/pages/FormPage.tsx:124-135 | in the role group the named role becomes the only ticked one; in the other groups the named flag is flipped; other groups, text and photos are unchanged |
| FormPage.RoleExample | src/pages/FormPage.tsx:124-135 | ticking DLS and then DL_FACCIATE leaves only DL_FACCIATE ticked |
| FormPage.RoleChoiceExclusive | src/pages/FormPage.tsx:128-132 | after any role change exactly that role is listed, and repeating the change is idempotent |
| FormPage.CheckboxTwiceRestores | src/pages/FormPage.tsx:128-133 | flipping an existing inspection-kind or outcome option twice restores the form |
| FormPage.HandleInputChange | src/pages/FormPage.tsx:116-122 | only the named field changes, to the given value; photos and checkbox groups are unchanged |
| FormPage.InputChangeValidity | src/pages/FormPage.tsx:81-122 | an input change decides the named field's filled status by its new value and leaves every other field's status alone |
| FormPage.HandleImagesChange | src/pages/FormPage.tsx:137-142 | the photo list is replaced and nothing else changes |
| CompressionConfig.PresetsValid | src/config/imageCompression.ts:35-123 | every quality of the four presets lies in (0, 1] and every size, resolution and timeout is positive |
| CompressionConfig.ReportFourByThree | src/config/imageCompression.ts:35-123 | the report-photo limit is a 4:3 box in every preset |
| CompressionConfig.SpreadInheritance | src/config/imageCompression.ts:59-106 | the high-quality preset inherits the default's report limits and timeout through the spread, the compact preset its timeout, while the logo limit is overridden |
| HeaderSelection.Config | src/hooks/useHeaderSelection.ts:11-22 | each configuration is stored under its own type, with a non-empty logo and company name |
| HeaderSelection.ConfigsDistinct | src/hooks/useHeaderSelection.ts:11-22 | the two brandings differ in logo and in company name |
| HeaderSelection.ChangeHeader | src/hooks/useHeaderSelection.ts:27-29 | the chosen header becomes the given one |
| HeaderSelection.GetCurrentHeader | src/hooks/useHeaderSelection.ts:31-33 | the configuration returned is the one of the chosen type |
| HeaderSelection.AvailableHeadersSpec | src/hooks/useHeaderSelection.ts:39 | exactly the two configurations are offered, each stored under its own type, and the current one is among them |
| HeaderSelection.InitialRedesco | src/hooks/useHeaderSelection.ts:25-33 | Redesco branding at start; after a change, the configuration of the new type |
| Translation.Find | src/hooks/useTranslation.ts:325 | the lookup finds nothing iff the key is absent, and otherwise an entry stored under the key |
| Translation.LookupOrKey | src/hooks/useTranslation.ts:325 | the entry's text in the language when the key is present and the text non-empty, else the key itself |
| Translation.FallbackIffMissing | src/hooks/useTranslation.ts:324-326 | in a table with text in both languages, the key comes back exactly when it is missing |
| Translation.TranslationsComplete | src/hooks/useTranslation.ts:13-319 | all 68 entries of the table have Italian and English text |
| Translation.ChangeLanguage | src/hooks/useTranslation.ts:328-330 | the language becomes the given one |
| Translation.TSpec | src/hooks/useTranslation.ts:322-330 | `t` gives the non-empty table text in the current language for a known key and the key itself otherwise; after a language change it answers in the new language |
| Translation.InitialItalian | src/hooks/useTranslation.ts:322-326 | the interface starts in Italian and answers in English after switching |
| ReferenceDocument.ReferenceTablesComplete | Reference/PDFDocument.tsx:11-59 | the document's translation table (21 entries) and its three label maps have text in both languages |
| ReferenceDocument.LookupsFallBackToKey | Reference/PDFDocument.tsx:59 | `getTranslation` and the label maps give the table text for a known key and the key itself for an unknown one |
| ReferenceDocument.RoleLines | Reference/PDFDocument.tsx:229-230 | one role line per ticked role |
| ReferenceDocument.RoleLinesSpec | Reference/PDFDocument.tsx:229-230 | each line is the label of a ticked role, in key order, and every ticked role is listed |
| ReferenceDocument.CheckboxRows | Reference/PDFDocument.tsx:303-313 | the method section shows one row per option, ticked or not |
| ReferenceDocument.CheckboxRowsSpec | Reference/PDFDocument.tsx:303-313 | row i shows option i's flag and label, and the ticked rows are as many as the true flags |
| ReferenceDocument.HeaderBranding | Reference/PDFDocument.tsx:700-701 | the header logo is the one the branding hook stores for the chosen type |
| ReferenceDocument.HeaderBrandingAgrees | Reference/PDFDocument.tsx:700-701 | the company name agrees with the branding hook for Maestrale but is blank for Redesco |
| ReferenceDocument.CalculateExpectedPages | Reference/PDFDocument.tsx:63-106 | the estimate is max(1, ceil(H/641)) with H the block heights for the ticked methods, the description length and the ticked outcomes, and is at least 1 |
| ReferenceDocument.EstimateMonotone | Reference/PDFDocument.tsx:83-89 | a longer description never lowers the estimate |
| ReferenceDocument.ShortDescriptionOnePage | Reference/PDFDocument.tsx:66-105 | with at most four methods and three outcomes, any description up to 1980 characters gives one page |
| ReferenceDocument.LongDescriptionTwoPages | Reference/PDFDocument.tsx:66-105 | the 1980 bound is tight: 1981 characters with a method and an outcome give two pages |
| ReferenceDocument.ReportOnePage | Reference/PDFDocument.tsx:63-105 | for the record's four methods and three outcomes, a description up to 1980 characters gives exactly one page |
| ReferenceDocument.DescriptionRuns | Reference/PDFDocument.tsx:328 | the description block is the formatted-text rendering of the description with the base style |
| InlineMarkup.ReplaceNbsp | Reference/PDFDocument.tsx:117 | replacing `&nbsp;` never lengthens the text |
| InlineMarkup.DropHSpace | Reference/PDFDocument.tsx:118 | dropping a leading run of horizontal space leaves a suffix that starts with another character and keeps every other character |
| InlineMarkup.CollapseHSpace | Reference/PDFDocument.tsx:118 | collapsing never lengthens the text, and it starts with a space exactly when the input starts with horizontal space |
| InlineMarkup.CollapseHSpaceSpaces | Reference/PDFDocument.tsx:118 | after collapsing, the only horizontal space left is a lone ' ', never two in a row |
| InlineMarkup.CollapseHSpaceKeeps | Reference/PDFDocument.tsx:118 | collapsing keeps every character outside the class, newlines included, in order |
| InlineMarkup.NormalizeSpec | Reference/PDFDocument.tsx:116-118 | the normalised text is single-spaced and keeps every non-space character of the input with `&nbsp;` read as a space |
| InlineMarkup.TagOf | Reference/PDFDocument.tsx:132 | the tag alternatives are exactly b, i and u |
| InlineMarkup.FindClose | Reference/PDFDocument.tsx:132 | the lazy body ends at the first closing tag of the same letter, and there is no match when none follows |
| InlineMarkup.MatchAt | Reference/PDFDocument.tsx:132 | a match tried at a position starts there and lies within the text |
| InlineMarkup.MatchAtSpec | Reference/PDFDocument.tsx:132 | a match is found at a position exactly when one exists there, and it is the one with the shortest body |
| InlineMarkup.FindMatch | Reference/PDFDocument.tsx:132-135 | the match found by the global pattern lies at or after the search position |
| InlineMarkup.FindMatchLeftmost | Reference/PDFDocument.tsx:132-135 | the match found is the leftmost one, and none is found only when none exists |
| InlineMarkup.FindMatchIs | Reference/PDFDocument.tsx:132-135 | the leftmost match after the search position is the one found |
| InlineMarkup.ParseSegments | Reference/PDFDocument.tsx:130-186 | the loop over the matches, with `lastIndex`, yields the recursive segment list: plain text, the body's runs or one leaf, then the tail |
| InlineMarkup.MatchRuns | Reference/PDFDocument.tsx:140-167 | one pass of the loop: the plain run before the match when there is text there, then the body parsed with the tag added, or the body as one leaf when that yields nothing |
| InlineMarkup.RenderFormattedText | Reference/PDFDocument.tsx:109-195 | empty text gives one empty run; text lacking `<` or `>` gives one normalised run; otherwise the runs' characters are the normalised text with matched tag pairs removed; every run keeps the base style and adds only tags that open and later close in the normalised text |
| InlineMarkup.SegmentsFromEmpty | Reference/PDFDocument.tsx:158-169 | parsing yields no runs only from the end of the text, so a leaf run is emitted only for an empty body |
| InlineMarkup.SegmentsText | Reference/PDFDocument.tsx:130-186 | the runs' characters, concatenated, are the text with every matched tag pair removed: nothing is lost and no body is emitted twice |
| InlineMarkup.BodyText | Reference/PDFDocument.tsx:150-167 | the characters of a match's runs are its body with the inner tag pairs removed |
| InlineMarkup.SegmentsStyle | Reference/PDFDocument.tsx:152-158 | every run carries at least the style it was parsed with, and beyond it only tags that open and later close in the text |
| InlineMarkup.BodyStyle | Reference/PDFDocument.tsx:152-169 | every run of a match's body carries the match's tag on top of the style it was parsed with, and beyond that only tags paired inside the body |
| InlineMarkup.PlainStyle | Reference/PDFDocument.tsx:141-150 | the text before a match is one run of exactly the style it was parsed with, absent when the match starts at `lastIndex` |
| InlineMarkup.PairedSlice | Reference/PDFDocument.tsx:132-160 | a tag paired inside a match's body is paired in the whole text, so nesting adds no new tag |
| InlineMarkup.NoMatchLiteral | Reference/PDFDocument.tsx:174-183 | text with no match comes back as one run in the base style, tags and all |
| InlineMarkup.NoTagsUnwrap | Reference/PDFDocument.tsx:120-122 | text lacking `<` or `>` has no matched pair |
| InlineMarkup.PlainText | Reference/PDFDocument.tsx:174-183 | text without `<` parses to itself as one run |
| InlineMarkup.BoldPlainItalic | Reference/PDFDocument.tsx:135-183 | a bold body, plain text and an italic body, none holding `<`, parse to exactly a bold, a plain and an italic run |
| InlineMarkup.CrackExample | Reference/PDFDocument.tsx:130-186 | `<b>Crack</b> found at <i>column 4</i>` gives ("Crack",{b}), (" found at ",{}), ("column 4",{i}) |
| InlineMarkup.UnknownTagExample | Reference/PDFDocument.tsx:132 | an unknown tag stays literal: `<x>a</x>` is one plain run |
| PdfWithFooter.FooterCompany | src/hooks/usePDFWithFooter.ts:146 | the footer's company is the branding hook's company name for the chosen header |
| PdfWithFooter.FooterText | src/hooks/usePDFWithFooter.ts:147-149 | the footer text starts with the company of the chosen header |
| PdfWithFooter.NumberedTextInjective | src/hooks/usePDFWithFooter.ts:147-149 | the page number and the total can be read back from a numbered footer text |
| PdfWithFooter.FooterTextInjective | src/hooks/usePDFWithFooter.ts:147-149 | the same footer text never stands for two page/total pairs |
| PdfWithFooter.FooterLayout | src/hooks/usePDFWithFooter.ts:143-182 | the footer text opens with the company of the chosen header, and the contact line ends 30 points from the right edge of the page |
| PdfWithFooter.BoundingBox | src/hooks/usePDFWithFooter.ts:386-396 | a 90 or 270 degree turn swaps the sides; any other rotation keeps them |
| PdfWithFooter.ScaleFits | src/hooks/usePDFWithFooter.ts:407-410 | the scaled extent fits both limits and meets at least one of them |
| PdfWithFooter.FinalSizeProportional | src/hooks/usePDFWithFooter.ts:412-414 | the drawn size is positive and keeps the image's proportions |
| PdfWithFooter.FinalSizeFits | src/hooks/usePDFWithFooter.ts:386-414 | once turned, the drawn size fits the limits and meets at least one of them |
| PdfWithFooter.OriginCentresImage | src/hooks/usePDFWithFooter.ts:421-440 | for each quarter turn, the image turned counter-clockwise about the draw origin covers a box centred on the area's centre with the turned extent |
| PdfWithFooter.PlaceImage | src/hooks/usePDFWithFooter.ts:373-449 | a photo is drawn iff it decodes, with its own rotation, and has a draw origin iff its rotation is a quarter turn |
| PdfWithFooter.FittingImageInBox | src/hooks/usePDFWithFooter.ts:421-440 | an image whose turned extent fits the limits lies inside the box around the centre |
| PdfWithFooter.AreaLimits | src/hooks/usePDFWithFooter.ts:401-423 | the centre and limits of each half leave 60 points at the sides and the caption space below |
| PdfWithFooter.A4Halves | src/hooks/usePDFWithFooter.ts:401-419 | on an A4 page the two image areas lie between header and footer, 5 points apart, with positive limits |
| PdfWithFooter.PlacedInsideItsHalf | src/hooks/usePDFWithFooter.ts:373-440 | on an A4 page, a decoded photo with a quarter-turn rotation lies wholly inside its half |
| PdfWithFooter.CaptionText | src/hooks/usePDFWithFooter.ts:452-456 | the caption is longer than the figure word and a space |
| PdfWithFooter.CaptionParts | src/hooks/usePDFWithFooter.ts:452-456 | the caption starts with `Figura`/`Figure` and the global number i+1, ends with the user's caption when there is one, and is just the word and number otherwise |
| PdfWithFooter.LayoutCaption | src/hooks/usePDFWithFooter.ts:458-479 | the caption lines are the wrapped caption, each centred on the page, the first 5 points above the area's bottom and each next one 14 points lower |
| PdfWithFooter.SlotImage | src/hooks/usePDFWithFooter.ts:248-255 | a slot draws an image iff its photo decodes |
| PdfWithFooter.AppendixHeader | src/hooks/usePDFWithFooter.ts:196-237 | the photo-page header shows the branding's logo and the company name for Maestrale only |
| PdfWithFooter.MakeSlot | src/hooks/usePDFWithFooter.ts:248-255 | slot i holds photo i in the given half, with a caption iff the photo decodes |
| PdfWithFooter.AppendixPage | src/hooks/usePDFWithFooter.ts:186-255 | the page opened at index i holds photo i on top and photo i+1 below when there is one, and carries the footer numbered mainPages + i/2 + 1 of the total |
| PdfWithFooter.AppendixPages | src/hooks/usePDFWithFooter.ts:185-255 | exactly ceil(n/2) photo pages are added |
| PdfWithFooter.WithFooters | src/hooks/usePDFWithFooter.ts:143-182 | stamping footers keeps the number of rendered pages |
| PdfWithFooter.PdfDocument.AddFooters | src/hooks/usePDFWithFooter.ts:143-182 | every rendered page gets its footer, page k numbered k+1 of the shared total |
| PdfWithFooter.PdfDocument.AddAppendix | src/hooks/usePDFWithFooter.ts:185-289 | the photo pages are appended after the rendered pages |
| PdfWithFooter.GeneratePdfWithFooter | src/hooks/usePDFWithFooter.ts:143-289 | the finished document is the stamped rendered pages followed by the photo pages |
| PdfWithFooter.WithFootersNumbering | src/hooks/usePDFWithFooter.ts:143-149 | rendered page k gets the footer of the chosen header and language numbered k+1 of mainPages + ceil(n/2) |
| PdfWithFooter.AppendixNumbering | src/hooks/usePDFWithFooter.ts:186-261 | photo page j gets the footer numbered mainPages + j + 1 of the same total |
| PdfWithFooter.FooterNumbering | src/hooks/usePDFWithFooter.ts:143-192 | the document has the announced number of pages and page k carries the footer numbered k+1 of that total, rendered and photo pages alike |
| PdfWithFooter.PhotoPlacement | src/hooks/usePDFWithFooter.ts:186-255 | photo i sits on photo page i/2, on top when i is even and below when odd, numbered with its global index |
| PdfWithFooter.LastPageOddCount | src/hooks/usePDFWithFooter.ts:186-255 | the last photo page holds a single photo exactly when the number of photos is odd |
| WordWrap.FirstSpace | src/hooks/usePDFWithFooter.ts:325 | the first whitespace position, with no whitespace before it |
| WordWrap.DropSpaces | src/hooks/usePDFWithFooter.ts:325 | dropping a whitespace run leaves a suffix that starts with another character and has the same non-space text |
| WordWrap.SplitWs | src/hooks/usePDFWithFooter.ts:325 | splitting on whitespace runs yields at least one piece and no piece holds whitespace |
| WordWrap.SplitWsContent | src/hooks/usePDFWithFooter.ts:325 | the pieces, concatenated, are the text without its whitespace |
| WordWrap.PushNonEmpty | src/hooks/usePDFWithFooter.ts:337-339 | an empty line is never emitted, a non-empty one is appended, and the emitted text grows by the line |
| WordWrap.PushFits | src/hooks/usePDFWithFooter.ts:337-339 | pushing a fitting line keeps every emitted line fitting |
| WordWrap.BreakWord | src/hooks/usePDFWithFooter.ts:341-352 | the per-character split emits only fitting or one-character lines and loses no character of the word |
| WordWrap.PlaceWord | src/hooks/usePDFWithFooter.ts:330-356 | one word step keeps every line fitting and adds exactly the word's characters to the emitted text |
| WordWrap.WrapTextToLines | src/hooks/usePDFWithFooter.ts:319-361 | no emitted line is empty, every line passed the width check or is a single character, and the lines without whitespace are the input without whitespace, in order |
| ImageManager.ImageFiles | src/components/ImageManager.tsx:21-22 | exactly the chosen files whose type starts with `image/` are kept |
| ImageManager.NewEntriesAt | src/components/ImageManager.tsx:20-33 | one entry per image file, in file order, each with its fresh id, an empty caption and rotation 0 |
| ImageManager.HandleFileChange | src/components/ImageManager.tsx:17-36 | without a file list nothing changes; otherwise the new entries are appended after the existing list |
| ImageManager.HandleFileChangeKeepsList | src/components/ImageManager.tsx:17-36 | the existing list is an unchanged prefix, one entry is added per image file, and fresh ids keep the ids distinct |
| ImageManager.RotateRight | src/components/ImageManager.tsx:60 | a right turn of an angle from -90 up lands in 0..359 (JavaScript remainder) |
| ImageManager.RotateLeft | src/components/ImageManager.tsx:61 | a left turn of an angle from -270 up lands in 0..359 (JavaScript remainder) |
| ImageManager.RotationInverses | src/components/ImageManager.tsx:59-61 | on 0..359 the two turns invert each other and four turns of either kind restore the angle |
| ImageManager.RightValue | src/components/ImageManager.tsx:60 | a right turn adds 90 and wraps at 360 |
| ImageManager.LeftValue | src/components/ImageManager.tsx:61 | a left turn subtracts 90 and wraps at 0 |
| ImageManager.QuarterTurnsClosed | src/components/ImageManager.tsx:59-61 | {0, 90, 180, 270} is closed under both turns |
| ImageManager.RotateImage | src/components/ImageManager.tsx:56-67 | only entries with the id change, and only their rotation; length and order are kept |
| ImageManager.RotateRightThenLeft | src/components/ImageManager.tsx:56-67 | turning right then left gives the list back |
| ImageManager.RotateImageKeepsQuarterTurns | src/components/ImageManager.tsx:56-67 | rotations stay quarter turns, so every photo gets a draw origin in the PDF |
| ImageManager.UpdateCaption | src/components/ImageManager.tsx:70-75 | only entries with the id change, and only their caption; length, order, ids and rotations are kept |
| ImageManager.UpdateCaptionLastWins | src/components/ImageManager.tsx:70-75 | the last caption typed is the one kept |
| ImageManager.RemoveImage | src/components/ImageManager.tsx:83 | filtering never lengthens the list |
| ImageManager.FindIndex | src/components/ImageManager.tsx:88 | the first position holding the id, or -1 exactly when none does |
| ImageManager.RemoveImageMembers | src/components/ImageManager.tsx:78-84 | the entries left are exactly those whose id differs |
| ImageManager.RemoveMissing | src/components/ImageManager.tsx:78-84 | removing an id no entry has changes nothing |
| ImageManager.RemoveImageExact | src/components/ImageManager.tsx:78-84 | with distinct ids, removing drops exactly the entry at the id's position and keeps the rest in order |
| ImageManager.Swap | src/components/ImageManager.tsx:94-95 | the two slots exchange their entries and the rest stay |
| ImageManager.MovedPermutes | src/components/ImageManager.tsx:87-97 | a move always yields a permutation of the list |
| ImageManager.MoveImage | src/components/ImageManager.tsx:87-97 | the array-copy-and-swap gives the list described by `Moved` |
| ImageManager.MovedCases | src/components/ImageManager.tsx:88-95 | a missing id or a move past either end changes nothing; otherwise the entry swaps with its neighbour |
| ImageManager.MoveUpThenDown | src/components/ImageManager.tsx:87-97 | with distinct ids, moving up then down restores the list |
| ImageManager.MoveDownThenUp | src/components/ImageManager.tsx:87-97 | with distinct ids, moving down then up restores the list |
| ImageManager.PreviewMatchesPdf | src/components/ImageManager.tsx:262-265 | the hint quotes exactly the Italian caption the PDF hook prints for the same position and caption |
| ImageManager.ExtraPages | src/components/ImageManager.tsx:284 | the announced extra pages are ceil(n/2) |
| ImageManager.ExtraPagesMatchAppendix | src/components/ImageManager.tsx:284 | the announced extra pages equal the photo pages the PDF hook adds for the same photos |
| ImageManager.SummaryText | src/components/ImageManager.tsx:280-285 | the summary is shown iff the list is not empty |
| ImageManager.SummaryTextTwoPhotos | src/components/ImageManager.tsx:283-284 | as written, two photos fill the summary with the words "immaginei" and "caricatae" |
| ImageManager.Inflect | src/components/ImageManager.tsx:283-284 | the stem is kept and its ending is the singular one exactly for a count of one |
| ImageManager.SummaryTextIntended | src/components/ImageManager.tsx:280-285 | the corrected summary is shown iff the list is not empty |
| ImageManager.SummaryTextIntendedSingle | src/components/ImageManager.tsx:283-284 | the corrected summary agrees with the written one for one photo |
| ImageManager.SummaryTextIntendedPlural | src/components/ImageManager.tsx:283-284 | for more than one photo the corrected summary says "immagini caricate", and "pagine" for more than one extra page |
| ImageCompression.OrElse | src/utils/imageCompression.ts:21-26 | a given option is used, a missing one takes its default |
| ImageCompression.ScaleFactor | src/utils/imageCompression.ts:52-54 | the factor is at most 1 (no upscaling), the scaled image fits both limits, and the factor meets 1 or one of the limits |
| ImageCompression.ClampWith | src/utils/imageCompression.ts:56-61 | after clamping, the width lies in [100, max(maxWidth,100)] and the height in [75, max(maxHeight,75)] |
| ImageCompression.ClampedSize | src/utils/imageCompression.ts:52-61 | clamped bounds as above, and an image already within the limits and the minimums keeps its size |
| ImageCompression.TargetDimensions | src/utils/imageCompression.ts:48-70 | the re-fit changes at most one side of the clamped size, none when the ratio already matches; a recomputed height is at most maxHeight and within half a pixel of the ratio; the width is at least 100 or the height at least 75, so the format is always JPEG |
| ImageCompression.ScaleAndClamp | src/utils/imageCompression.ts:56-61 | the rounding and clamping assignments compute the clamped size |
| ImageCompression.Refit | src/utils/imageCompression.ts:64-70 | the re-fit keeps one side, keeps both when the ratio matches, and rounds the other side to the image's ratio, the height never above maxHeight |
| ImageCompression.RoundBelow | src/utils/imageCompression.ts:65-66 | rounding a value at most an integer bound stays within the bound |
| ImageCompression.CompressImageTo250DPI | src/utils/imageCompression.ts:17-112 | a result exists iff the image decodes and a drawing context exists; it is JPEG at the requested quality, at least 100 wide or 75 high, and no higher than max(maxHeight,75) |
| ImageCompression.ReportOptions | src/utils/imageCompression.ts:154-159 | a report photo is compressed with the preset's resolution and report-photo limits and quality |
| ImageCompression.Resolved | src/utils/imageCompression.ts:120-128 | a failed compression falls back to the original source |
| ImageCompression.CompressMultipleImages | src/utils/imageCompression.ts:117-139 | the record is filled entry by entry from the per-image outcomes |
| ImageCompression.CollectedKeys | src/utils/imageCompression.ts:133-136 | the record has one entry per distinct key |
| ImageCompression.CollectedLastWins | src/utils/imageCompression.ts:133-136 | each key maps to the outcome of the last image with that key |
| ImageCompression.PreloadSources | src/utils/imageCompression.ts:206-246 | the PDF needs exactly three images |
| ImageCompression.PreloadKeys | src/utils/imageCompression.ts:206-246 | the preload yields exactly the keys logo, checkbox_checked and checkbox_unchecked, each with its own outcome |
| ImageCompression.CompressAllReportImages | src/utils/imageCompression.ts:178-201 | one result per file |
| ImageCompression.CompressAllReportImagesOrder | src/utils/imageCompression.ts:178-201 | results keep the input order (two batches give the results of their concatenation) and a failing file falls back to its object URL |
| SummaryDocument.ToUpperAscii | src/components/PDFDocument.tsx:267 | a lower-case ASCII letter becomes a capital; every other character is kept |
| SummaryDocument.SpaceBeforeCapitals | src/components/PDFDocument.tsx:267 | inserting spaces never shortens the text |
| SummaryDocument.SpaceBeforeCapitalsSpaced | src/components/PDFDocument.tsx:267 | in the result every capital is preceded by a space |
| SummaryDocument.SpaceBeforeCapitalsContent | src/components/PDFDocument.tsx:267 | the non-space characters are left as they were |
| SummaryDocument.SpaceBeforeCapitalsAppend | src/components/PDFDocument.tsx:267 | the replacement works piece by piece |
| SummaryDocument.NoCapitalsUnchanged | src/components/PDFDocument.tsx:267 | text without capitals is left alone |
| SummaryDocument.Trim | src/components/PDFDocument.tsx:267 | `trim()` leaves neither leading nor trailing whitespace and keeps every other character |
| SummaryDocument.LabelCharacters | src/components/PDFDocument.tsx:267 | a label's non-space characters are the key's, with only the first upper-cased |
| SummaryDocument.LabelSpacing | src/components/PDFDocument.tsx:267 | after the first character, every capital of the label follows a space |
| SummaryDocument.LabelExample | src/components/PDFDocument.tsx:267 | `nonConforme` is shown as "Non Conforme" |
| SummaryDocument.TrimUnchanged | src/components/PDFDocument.tsx:267 | text that neither starts nor ends with whitespace is its own trim |
| SummaryDocument.OneCapitalSpaced | src/components/PDFDocument.tsx:267 | a single capital between capital-free pieces gets exactly one space before it |
| SummaryDocument.OptionLine | src/components/PDFDocument.tsx:267 | every listed line starts with "▢ " |
| SummaryDocument.SelectedLines | src/components/PDFDocument.tsx:266-268 | one line per ticked option, each starting with "▢ " |
| SummaryDocument.SelectedLinesExact | src/components/PDFDocument.tsx:266-268 | with distinct keys, every ticked option gets its line and every line belongs to a ticked option |
| DocxGenerator.Lower | src/References/docx_generator.py:257 | the result is never an upper-case letter, and a character that is not upper case is kept |
| DocxGenerator.LowerAll | src/References/docx_generator.py:257 | lower-casing keeps the length and lowers each character in place |
| DocxGenerator.PySplitContent | src/References/docx_generator.py:257 | `split()` loses exactly the whitespace: the words put back together are the text without its white-space characters |
| DocxGenerator.PySplitWords | src/References/docx_generator.py:257 | every word `split()` returns is non-empty and holds no whitespace |
| DocxGenerator.NormalizeTextAlphabet | src/References/docx_generator.py:255-260 | a normalised text holds only lower-case letters, digits and plain spaces |
| DocxGenerator.NormalizeTextContent | src/References/docx_generator.py:255-260 | normalising keeps every letter and digit of the lower-cased text, in order |
| DocxGenerator.NormalizeSymbolBetweenWords | src/References/docx_generator.py:255-260 | a symbol standing between two words vanishes and leaves two spaces behind (`a / b` becomes `a  b`) |
| DocxGenerator.GetSound | src/References/docx_generator.py:299-301 | a value found under a key is stored under that key |
| DocxGenerator.GetComplete | src/References/docx_generator.py:299-301 | with distinct keys, a stored pair is found |
| DocxGenerator.NormalizedData | src/References/docx_generator.py:316 | the normalised dictionary has one entry per entry, with the key normalised and the value kept |
| DocxGenerator.ResolveSound | src/References/docx_generator.py:297-324 | a value the lookup finds is stored under the placeholder, the placeholder without spaces, the normalised placeholder, or a key that normalises like it |
| DocxGenerator.ResolveComplete | src/References/docx_generator.py:297-324 | a stored non-null value under any of the first three keys is found, and an exact key wins |
| DocxGenerator.Replacement | src/References/docx_generator.py:282-287 | check-box placeholders and the twelve option names are skipped; a value that is not found becomes the empty text; a found text is used as it is |
| DocxGenerator.TagAt | src/References/docx_generator.py:357-447 | a recognised tag lies wholly inside the value |
| DocxGenerator.TagAtAgrees | src/References/docx_generator.py:357-447 | reading a tag from its characters gives the same tag as the six slice comparisons tried in order |
| DocxGenerator.ScanTags | src/References/docx_generator.py:348-463 | the loop over the characters produces exactly the runs the scanner function defines |
| DocxGenerator.ScanStep | src/References/docx_generator.py:355-447 | one pass of the loop body: the runs it emits, followed by the scan from where it stops, are the scan from where it started |
| DocxGenerator.TagStep | src/References/docx_generator.py:357-447 | one tag is consumed: the runs flushed at it followed by the scan after it are the scan from the tag |
| DocxGenerator.Flush | src/References/docx_generator.py:357-447 | the text gathered before a tag is emitted as the scanner function says |
| DocxGenerator.SetFlags | src/References/docx_generator.py:357-447 | an opening tag switches its style on and a closing tag switches it off, leaving the other two |
| DocxGenerator.ScanContent | src/References/docx_generator.py:348-463 | the texts of the runs, joined, are the value with its six tags removed |
| DocxGenerator.ScanFromNonEmpty | src/References/docx_generator.py:348-463 | no run the scanner emits is empty |
| DocxGenerator.ScanPlaceholderRun | src/References/docx_generator.py:359-369 | only the first run can reuse the placeholder's own run, and only when no text stood before the placeholder |
| DocxGenerator.ClosingTagStyles | src/References/docx_generator.py:406-447 | text flushed at a closing tag carries that tag's style |
| DocxGenerator.UnopenedCloseExample | src/References/docx_generator.py:406-419 | a `</b>` with no `<b>` before it still makes the preceding text bold |
| DocxGenerator.NearestCheckbox | src/References/docx_generator.py:173-194 | the chosen field is a check box before the placeholder, less than 100 characters away, at the least distance, the first one among equals; none is chosen exactly when every candidate is 100 or more characters away |
| DocxGenerator.ImageSizeTurns | src/References/docx_generator.py:737-756 | turning a photo a further quarter turn swaps the reported width and height, a further half turn keeps them, and the area never changes |
| DocxGenerator.Trunc | src/References/docx_generator.py:856 | Python's `int()` truncates toward zero |
| DocxGenerator.Pixels | src/References/docx_generator.py:867-872 | the pixel size is at least one and is the EMU length divided by 3750, rounded down |
| DocxGenerator.TargetSize | src/References/docx_generator.py:855-872 | when the photo at full height is no wider than the available width it takes the full height and that width; otherwise it takes the full width and the matching height; it never exceeds the available area, and the pixel size is at least one |
| DocxGenerator.CellTableFails | src/References/docx_generator.py:758-787 | a table placed in a cell fails before any photo is placed |
| DocxGenerator.AvailableAreaIntended | src/References/docx_generator.py:758-787 | the corrected area agrees with the code on a page and is 15 cm by 10 cm in a cell |
| DocxGenerator.CountTrue | src/References/docx_generator.py:941-957 | the number of placed photos never exceeds the number of rows |
| DocxGenerator.FigureNumber | src/References/docx_generator.py:941-957 | a figure number is between 1 and one more than the earlier rows |
| DocxGenerator.FigureNumberAllPlaced | src/References/docx_generator.py:941-957 | when every earlier photo was placed, row `i` is figure `i + 1` |
| DocxGenerator.FormatCaptionSpec | src/References/docx_generator.py:959-965 | the stripped caption always starts with `Figura`; a non-empty caption that lacks it gets a `Figura ` prefix and keeps its stripped text at the end |
| DocxGenerator.StripRightKeeps | src/References/docx_generator.py:959-965 | stripping trailing whitespace keeps every character up to the last non-space |
| DocxGenerator.FormatCaptionIdempotent | src/References/docx_generator.py:959-965 | formatting a caption a second time changes nothing |
| FormInterface.ParseInt | src/References/form_interface.py:267 | Python's `int()` on a text accepts nothing that is blank after stripping |
| FormInterface.FormatSerial | src/References/form_interface.py:268 | `{n:03d}` gives at least three digits, with a minus sign in front for a negative number |
| FormInterface.FormatSerialRoundTrip | src/References/form_interface.py:267-268 | reading back a formatted serial number gives the number itself |
| FormInterface.NextSerial | src/References/form_interface.py:264-270 | a value `int()` rejects is kept; any other becomes the next number in `{:03d}` form |
| FormInterface.NextSerialAdvances | src/References/form_interface.py:264-270 | the serial after the one for `n` is the one for `n + 1` |
| FormInterface.NextSerialExamples | src/References/form_interface.py:264-270 | `007` becomes `008` and `999` becomes `1000` |
| FormInterface.Loaded | src/References/form_interface.py:264-273 | loading keeps every saved key and value, except that `Numero` is advanced |
| FormInterface.SaveRecord | src/References/form_interface.py:289-309 | the saved record holds exactly the eight listed fields present in the form, every check box, and the template path when it differs from the default |
| FormInterface.SaveThenLoad | src/References/form_interface.py:255-309 | a saved field or check box reads back unchanged on the next start, except `Numero`, which reads back advanced |
| FormInterface.CacheGet | src/References/form_interface.py:251-253 | a hit was stored under that key; a miss means the key is absent |
| FormInterface.Evict | src/References/form_interface.py:246-248 | a full cache drops its oldest entry and a cache below the limit is kept |
| FormInterface.Put | src/References/form_interface.py:249 | storing grows the cache by one exactly when the key was new |
| FormInterface.PutGet | src/References/form_interface.py:249 | after storing, the key gives the new image and every other key gives what it gave before |
| FormInterface.PutDistinct | src/References/form_interface.py:249 | storing keeps the keys distinct and adds no key but the stored one |
| FormInterface.CacheAddSpec | src/References/form_interface.py:244-249 | the cache never exceeds ten entries and keeps distinct keys; the new image is found; only the evicted oldest key is lost |
| FormInterface.TurnLeft | src/References/form_interface.py:504 | the new angle lies in 0 to 359 |
| FormInterface.TurnRight | src/References/form_interface.py:519 | the new angle lies in 0 to 359 |
| FormInterface.TurnsInverse | src/References/form_interface.py:498-526 | a left turn and a right turn undo each other, right angles stay right angles, and four left turns give the start |
| FormInterface.TurnsNormalise | src/References/form_interface.py:498-526 | a left turn then a right turn bring any angle to its value modulo 360 |
| FormInterface.DisplayLabelShows | src/References/form_interface.py:945-946 | the list entry shows the figure number (or `Figura`) and the caption, cut at 25 characters with `...` after it |
| FormInterface.DisplayLabelBounded | src/References/form_interface.py:945-946 | the list entry never exceeds the figure number's length plus 36 characters |
| FormInterface.WithRotation | src/References/form_interface.py:599-601 | the rotation note is added exactly when the angle is not 0, after the label |
| FormInterface.AddPathsSpec | src/References/form_interface.py:394-402 | adding photos keeps the list's paths distinct, keeps the earlier photos in place, makes every chosen path present, and numbers each new photo by its position with an empty caption and no rotation |
| FormInterface.FormApplication.constructor | src/References/form_interface.py:144-148 | a new window has no photos, no selection, no rotation and an empty cache |
| FormInterface.FormApplication.ClearCache | src/References/form_interface.py:240-242 | the cache is emptied |
| FormInterface.FormApplication.GetFromCache | src/References/form_interface.py:251-253 | a hit was stored under that key; a miss means the key is absent |
| FormInterface.FormApplication.AddToCache | src/References/form_interface.py:244-249 | the cache becomes the bounded insertion of the image, which is then found under its key |
| FormInterface.FormApplication.LoadSavedData | src/References/form_interface.py:264-277 | the defaults are updated with the loaded record and a saved template path replaces the current one |
| FormInterface.FormApplication.LoadImagePreview | src/References/form_interface.py:446-493 | a cached preview or an unreadable file leaves the cache and the original alone; otherwise the preview is cached under `path_rotation` (evicting the oldest entry when full) and the original is kept |
| FormInterface.FormApplication.LoadImageDetails | src/References/form_interface.py:422-444 | a valid index selects that photo, shows its rotation, caption and figure number, and loads its preview into the cache as `load_image_preview` does; any other index changes nothing |
| FormInterface.FormApplication.ClearDetails | src/References/form_interface.py:615-629 | the selection, the original, the rotation and both fields are cleared |
| FormInterface.FormApplication.AddImages | src/References/form_interface.py:394-409 | the list becomes the list with the new distinct paths appended; a list of exactly one photo selects it, shows its fields and loads its preview; otherwise the selection, rotation, fields, cache and original are unchanged |
| FormInterface.FormApplication.AutoSaveDetails | src/References/form_interface.py:915-952 | with a photo selected, its entry takes the stripped caption, figure number and current rotation and the list shows the new label; without one nothing changes |
| FormInterface.FormApplication.SaveImageDetails | src/References/form_interface.py:564-605 | as the automatic save, and the label also carries the rotation note |
| FormInterface.FormApplication.StoreDetails | src/References/form_interface.py:577-580 | the selected entry takes the given caption, figure number and current rotation and no other entry changes |
| FormInterface.FormApplication.RotateLeft | src/References/form_interface.py:498-511 | with a photo and its original loaded, the angle turns left by 90 degrees and is saved in the entry with the stripped caption and figure number, and the entry's new list label is returned; otherwise nothing changes |
| FormInterface.FormApplication.RotateRight | src/References/form_interface.py:513-526 | with a photo and its original loaded, the angle turns right by 90 degrees and is saved in the entry with the stripped caption and figure number, and the entry's new list label is returned; otherwise nothing changes |
| FormInterface.FormApplication.RemoveImage | src/References/form_interface.py:631-645 | no selection changes nothing; otherwise the chosen photo leaves the list and the photo at the same position, or the new last one, is selected with its rotation, fields and preview; an emptied list clears the selection, rotation, fields and original and keeps the cache; the saved defaults and model path never change |
| FormInterface.WithDetails | src/References/form_interface.py:577-580 | only the chosen entry changes, and no path changes |
| FormInterface.DetailsKeepDistinct | src/References/form_interface.py:577-580 | editing a photo's details keeps the paths distinct |
| FormInterface.RemoveKeepsDistinct | src/References/form_interface.py:636 | removing a photo keeps the paths distinct |
| FormInterface.RemoveSelectsNeighbour | src/References/form_interface.py:638-642 | after a removal the selection falls on the photo that followed the removed one, or on the one before it when the last was removed |
| FormInterface.SerializeField | src/References/form_interface.py:700-734 | the loop over lines and characters yields the serialised, stripped text, or the default when nothing is left |
| FormInterface.JoinLines | src/References/form_interface.py:704-727 | the loop over the lines yields each serialised line, with a newline after every line but the last |
| FormInterface.SerializeLine | src/References/form_interface.py:710-724 | the loop over a line's characters yields the concatenation of the characters, each serialised with its tags |
| FormInterface.FormatCharShape | src/References/form_interface.py:716-722 | a character is written as its opening tags, `<u>` outermost and `<b>` innermost, then the character, then the closing tags in the reverse order |
| FormInterface.FormatLineAppend | src/References/form_interface.py:710-724 | serialising a line piece by piece gives the serialisation of the whole line |
| FormInterface.JoinedIsFormatted | src/References/form_interface.py:704-727 | the joined text is the serialisation of all the box's characters, with an untagged newline character between lines |
| FormInterface.Styled | src/References/form_interface.py:711-725 | giving a text one style keeps its length |
| FormInterface.ScanReadsBack | src/References/form_interface.py:711-725 | the template filler's tag scanner reads a serialised line back as exactly the characters and styles of the box |
| FormInterface.FieldReadsBack | src/References/form_interface.py:703-729 | when the serialised value goes through the template filler's tag scanner (the "Oggetto del Sopralluogo" placeholder, a value holding `<b>`, `<i>` or `<u>`, the placeholder inside one run), every line of the box, line breaks included, reaches the document with the formatting it had in the box |

## Left out

- JSX layout, `StyleSheet` objects and the pure UI components (check-box group, inputs, tabs, language and header selectors) draw on screen and have no behaviour to state.
- react-pdf's rendering and line breaking, pdf-lib's embedding and drawing, and canvas/`Image`/`FileReader` decoding are foreign libraries. A page is modelled by what is drawn on it. Font width, decoded sizes and load outcomes are parameters.
- Fetching the logos, object URLs and the download link are browser I/O.
- Date formatting with `date-fns` and `new Date` depends on the library and the time zone. The date is a parameter.
- `Promise.all` and the worker thread of src/References/form_interface.py:854-871 are concurrency. The per-item results are modelled in order, one after another.
- Random and time-based photo ids (src/components/ImageManager.tsx:14) are given as parameters.
- Floating point is modelled as `real`: `Math.round` is round-half-up and `int()` truncates. Rounding error of binary floating point is not modelled.
- Tkinter widgets, PIL image operations, JSON file I/O, win32com and python-docx XML editing are left out. The widgets' contents and the decoded images are parameters or fields.
- The first, check-box pass of the placeholder filler (src/References/docx_generator.py:263-276) only renames runs for the COM step and is not modelled. The regular expression that finds placeholders is not modelled either: the filler works on one placeholder at a time.
- Run font names and sizes, and the placement of the generated runs in the paragraph's XML, are not modelled.
- DocxGenerator.Lower: Python's `lower`, `isalnum` and `isspace` are modelled on the ASCII and Latin-1 range only.
- FormInterface.ParseInt: Python's `int()` is modelled without underscores between digits and without non-ASCII digits.
- FormInterface.FormApplication.LoadSavedData: a `model_path` saved as something other than a string is ignored. Python would store it anyway and fail later in the text variable.
- FormInterface.FieldReadsBack: the read-back theorem covers the serialised box before `strip()`. The whitespace `strip()` removes at the two ends does not reach the document.
- FormInterface.FieldReadsBack: the read-back is stated only for the tag-scanner path of src/References/docx_generator.py:327-335. On the plain path (any other placeholder, or an unformatted value) the tags are not interpreted and whitespace-only lines are skipped (src/References/docx_generator.py:509-511), so an unformatted box holding a blank line loses it there; a formatted value whose placeholder is split across runs is not written at all (src/References/docx_generator.py:336-337).
- FormInterface.FieldReadsBack: the character `<` typed into the box is excluded, because the scanner can read it as the start of a tag.
- FormInterface.FormApplication.LoadImagePreview: preview pixels (the 300 by 300 white canvas, the thumbnail) are not modelled. A cache hit does not refresh the kept original image, because the source does not refresh it either; the model keeps only the flag that an original is loaded.
- ReferenceDocument.CalculateExpectedPages: the description length is the number of characters of the model string. JavaScript's `.length` counts UTF-16 code units, so a character outside the Basic Multilingual Plane counts twice in the source and once here.
- SummaryDocument.ToUpperAscii: `toUpperCase` is modelled on the ASCII letters only. JavaScript also upper-cases accented and other non-ASCII first letters, and a few of them, such as `ß`, become two characters.
- The list box itself is not modelled, including the base name it shows for a new photo. Only the label texts are.
- `generate_document`'s template loading, COM conversion and error dialogs are I/O. Only the serialisation of the formatted fields is modelled.

## Findings

| source | as written | input that shows it | evidently intended | confidence | as-written member | corrected member |
|---|---|---|---|---|---|---|
| src/components/ImageManager.tsx:283-284 | the plural endings `i` and `e` are appended to the singular words `immagine` and `caricata` | two photos: the summary words become "immaginei" and "caricatae" | "2 immagini caricate", with "pagine" for more than one extra page | not executed | ImageManager.SummaryTextTwoPhotos | ImageManager.SummaryTextIntendedPlural |
| src/References/docx_generator.py:758-787 | when there is no document (a table inside a cell, called from line 735), the report lines read `available_width_cm` and `available_height_cm`, which only the document branch assigns, so a `NameError` is raised | `insert_images_table(cell, images)` with any photo list; nothing in docx_generator.py or form_interface.py calls `insert_images_table`, so the defect is latent | the cell branch uses its 15 cm by 10 cm area | not executed | DocxGenerator.CellTableFails | DocxGenerator.AvailableAreaIntended |
