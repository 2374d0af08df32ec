# Portfolio site logic, modelled in Dafny

The site is a personal portfolio built as a Next.js application. Most of it is
markup and animation. This project models the small, sequential pieces of
logic in it and proves what they do:

- **Animated text** (`AnimatedText`): how a text is cut into word or letter
  items. Also the typewriter state machine. Each timer firing types one
  character, ends the pause, deletes one character, or moves on to the next
  word in a cycle. The state lives in a `Typewriter` class with a `Tick`
  method, specified by the step function `Next`.
- **Project catalog** (`ProjectCatalog`): the 16 literal project records, in
  an agency list and a personal/freelance list. Also `allProjects` and
  `featuredProjects`.
- **Projects section** (`ProjectsSection`): the three-way filter, the
  highlighted filter button and the agency disclaimer.
- **Contact form** (`ContactForm`): the three fields and the
  `idle`/`loading`/`success`/`error` status. The relay call is reduced to its
  outcome: ok, not ok, or throws. There is a value-level session with a
  `Run` over events, and a `Contact` class whose methods are the handlers.
- **Theme** (`Browser`, `RootLayout`, `ThemeToggle`): the root element's
  class set and `localStorage`. The pre-hydration script adds `dark`. The
  toggle button flips `isDark`, edits the class set and stores `dark` or
  `light`, and re-reads the class set on mount and on every mutation.
- **Image conversion** (`WebpConversion`): the offline script that walks
  `./public/images` depth first. For each PNG or JPEG it computes the
  `.webp` output path and skips the file when the output is strictly newer.
  Otherwise it converts, and logs and swallows a failure. The file system
  is an entry tree plus a map from existing paths to modification times.
  The script runs in a `Converter` class. Its loop and recursion are proved
  against the functions `ConvertOne` and `Walk`.

`Wrappers` holds the `Option` type.

A few facts about the code that shape the model:

- The project filter has three values: `all`, `personal` and `agency`.
- The contact form's status never returns to `idle` by itself, and success
  is read from the HTTP status (`response.ok`), not from the response body.

## Model

| member | source | states |
|---|---|---|
| AnimatedText.Split | src/components/ui/AnimatedText.tsx:20 | `text.split(" ")` always yields at least one item, and no item contains the separator |
| AnimatedText.JoinSplitWords | src/components/ui/AnimatedText.tsx:20 | word mode round trip: the word items joined with single spaces give back the text |
| AnimatedText.SplitJoin | src/components/ui/AnimatedText.tsx:20 | the other direction: at least one space-free item, joined with spaces, splits back into the same items |
| AnimatedText.JoinSplitReplaces | src/components/ui/AnimatedText.tsx:20 | joining the split items with any glue puts the glue exactly where the separators were |
| AnimatedText.WithSeparators | src/components/ui/AnimatedText.tsx:59-68 | in word mode every item except the last is followed by a no-break space; the last has none |
| AnimatedText.WordSpansShowText | src/components/ui/AnimatedText.tsx:59-68 | the word spans read in order show the text with each space turned into a no-break space |
| AnimatedText.Letters | src/components/ui/AnimatedText.tsx:20 | `text.split("")` gives one single-character item per character, in order |
| AnimatedText.LetterSpansShowText | src/components/ui/AnimatedText.tsx:20-69 | letter mode: as many spans as characters, and their concatenation is the text |
| AnimatedText.Next | src/components/ui/AnimatedText.tsx:121-137 | a tick keeps the index in range and the text a prefix of its word. Typing below full length appends the word's next character. At full length the text stays and deleting starts. Deleting drops exactly the last character. At empty text deleting stops and the index goes to `(i+1) % n`. The index changes only then, and the text only with the mode and index unchanged |
| AnimatedText.TypesPrefix | src/components/ui/AnimatedText.tsx:122-124 | from the first `j` characters of the word, `k` typing ticks show the first `j+k` |
| AnimatedText.DeletesPrefix | src/components/ui/AnimatedText.tsx:129-132 | from the first `m+k` characters, `k` deleting ticks leave the first `m` |
| AnimatedText.TypesWordThenPauses | src/components/ui/AnimatedText.tsx:122-128 | `L+1` ticks from the empty text reach the full word of length `L` with deleting on |
| AnimatedText.DeletesWordThenAdvances | src/components/ui/AnimatedText.tsx:129-137 | `L+1` ticks from the full word, deleting, reach the next word with nothing typed |
| AnimatedText.WordCycle | src/components/ui/AnimatedText.tsx:116-143 | a whole word cycle is `2L+2` ticks and ends at `((i+1) % n, "", typing)` |
| AnimatedText.TicksAdd | src/components/ui/AnimatedText.tsx:116-143 | `a+b` ticks are `a` ticks followed by `b` ticks |
| AnimatedText.Typewriter.constructor | src/components/ui/AnimatedText.tsx:112-114 | on mount: index 0, empty text, typing, and the state invariant holds |
| AnimatedText.Typewriter.Tick | src/components/ui/AnimatedText.tsx:119-137 | the timeout callback updates the three fields in place exactly as `Next` does and keeps the invariant |
| ProjectCatalog.AgencyProjectsAreAgency | src/data/projects.ts:14-104 | the agency list has 8 entries, all of kind `Agency` |
| ProjectCatalog.PersonalProjectsAreNotAgency | src/data/projects.ts:106-198 | the personal list has 8 entries, each `Personal Project` or `Freelance` |
| ProjectCatalog.CatalogIdsDistinct | src/data/projects.ts:14-200 | `allProjects` has 16 entries and no two share an `id` |
| ProjectCatalog.Filter | src/data/projects.ts:202 | `Array.filter`: an entry is in the result iff it is in the input and passes, and the result is no longer than the input |
| ProjectCatalog.FilterAppend | src/data/projects.ts:200-202 | filtering a concatenation filters each part and keeps their order |
| ProjectCatalog.FeaturedProjectsAre | src/data/projects.ts:14-202 | `featuredProjects` is the first three personal projects followed by the second agency project, in catalog order |
| ProjectCatalog.FeaturedProjectIds | src/data/projects.ts:202 | by id, `featuredProjects` is `netflix-clone`, `slack-clone`, `analytics-dashboard`, `mediview` |
| ProjectCatalog.FeaturedOnlyFlagged | src/data/projects.ts:10-202 | an entry is featured iff it is in the catalog and its flag is `true`; entries without the flag are never featured |
| ProjectCatalog.DistinctIdsOfParts | src/data/projects.ts:200 | both parts of a list with distinct ids have distinct ids |
| ProjectsSection.SwitchOver | src/components/sections/Projects.tsx:14-24 | every entry the switch returns is in the personal list followed by the agency list, it is no longer than both together, and for `personal` and `all` it starts with the whole personal list |
| ProjectsSection.FilteredProjects | src/components/sections/Projects.tsx:14-24 | every project the grid shows is in `allProjects` |
| ProjectsSection.FilteredIsSelectionByKind | src/components/sections/Projects.tsx:14-24 | the switch yields exactly the catalog entries of the filter's kinds, in catalog order: `personal` gives the personal and freelance work, `agency` the agency work, `all` everything |
| ProjectsSection.SwitchSelectsByKind | src/components/sections/Projects.tsx:14-24 | for any personal list without agency work and any agency-only list, the switch equals filtering their concatenation by kind |
| ProjectsSection.FilteredWithinAll | src/components/sections/Projects.tsx:14-24 | every filtered entry is in the `all` result. `all` is `allProjects`, and its length is the sum of the other two results' lengths |
| ProjectsSection.FilteredIdsDistinct | src/components/sections/Projects.tsx:95-97 | no filtered list repeats an `id`, so the grid keys are unique |
| ProjectsSection.OpensShowingEverything | src/components/sections/Projects.tsx:12-24 | the section opens on `all`: the grid shows the whole catalog, agency work included, with the disclaimer |
| ProjectsSection.DisclaimerIffAgencyShown | src/components/sections/Projects.tsx:66 | the agency disclaimer is shown exactly when the grid shows some agency work |
| ProjectsSection.SwitchShowsAgencyIff | src/components/sections/Projects.tsx:14-66 | over a non-empty agency-only list and a personal list without agency work, agency work is in the switch's result iff the filter is `agency` or `all` |
| ProjectsSection.Click | src/components/sections/Projects.tsx:47-53 | after clicking button `i`, button `j` is drawn highlighted iff `j == i` |
| ProjectsSection.ExactlyOneHighlighted | src/components/sections/Projects.tsx:47-53 | for every filter, exactly one button is highlighted |
| ContactForm.Set | src/components/sections/Contact.tsx:48-51 | the change updater overwrites the named field and leaves the other two unchanged |
| ContactForm.Changed | src/components/sections/Contact.tsx:45-52 | `handleChange` keeps the status, sets the named field and leaves the others unchanged |
| ContactForm.Dispatches | src/components/sections/Contact.tsx:85-127 | a press reaches `handleSubmit` iff the button is enabled, the email passed the browser's check, and every required field is non-empty |
| ContactForm.Step | src/components/sections/Contact.tsx:17-52 | the status changes only on a dispatched press, to `loading`, or on a response while `loading`, to `success` or `error`. A response in any other status changes nothing. The fields change only by an edit or by the clearing after an ok response |
| ContactForm.LeavesIdleOnlyBySubmitting | src/components/sections/Contact.tsx:17-43 | from `idle`, any run that leaves `idle` (and so any that reaches `success` or `error`) contains a press that dispatched a submission from the state at that point |
| ContactForm.Submitted | src/components/sections/Contact.tsx:17-19 | a submit first sets status `loading`, with the fields unchanged |
| ContactForm.Responded | src/components/sections/Contact.tsx:34-42 | an ok response gives `success` with all fields empty; a not-ok response or a thrown call gives `error` with the fields unchanged |
| ContactForm.NeverBackToIdle | src/components/sections/Contact.tsx:15-43 | once the status has left `idle`, no sequence of events brings it back |
| ContactForm.EditsKeepStatus | src/components/sections/Contact.tsx:45-52 | any sequence of edits leaves the status unchanged |
| ContactForm.PressIgnoredWhileLoading | src/components/sections/Contact.tsx:127 | while `loading` the disabled button makes a press a no-op |
| ContactForm.EmptyFieldNeverSubmits | src/components/sections/Contact.tsx:85-118 | with an empty required field, a press changes nothing, whatever the status |
| ContactForm.SuccessfulSubmission | src/components/sections/Contact.tsx:17-36 | a dispatched submission with an ok response ends in `success` with all fields cleared |
| ContactForm.FailedSubmissionKeepsFields | src/components/sections/Contact.tsx:17-42 | a dispatched submission that fails ends in `error` with the fields as typed, and pressing send again dispatches the same fields |
| ContactForm.SuccessClearsEditsMadeWhileLoading | src/components/sections/Contact.tsx:34-52 | edits made while `loading` are wiped by a later success |
| ContactForm.PendingUntilResponse | src/components/sections/Contact.tsx:17-52 | while `loading`, any sequence of presses and edits without a response keeps the status `loading` |
| ContactForm.NoMessageUntilResponse | src/components/sections/Contact.tsx:17-161 | after a dispatched press, and until a response arrives, the button is disabled and neither the success nor the error message shows |
| ContactForm.Contact.constructor | src/components/sections/Contact.tsx:10-15 | on mount all three fields are empty and the status is `idle` |
| ContactForm.Contact.HandleSubmit | src/components/sections/Contact.tsx:17-32 | sets `loading` and sends the fields as they were |
| ContactForm.Contact.ReceiveResponse | src/components/sections/Contact.tsx:34-42 | called only while `loading` (the one pending submission); updates the state in place as `Responded` does |
| ContactForm.Contact.HandleChange | src/components/sections/Contact.tsx:45-52 | updates the state in place as `Changed` does |
| Browser.GetItem | src/app/layout.tsx:49 | `localStorage.getItem` gives the stored string when the key is present and `null` otherwise |
| Browser.Document.constructor | src/app/layout.tsx:47-53 | a page load starts with no root classes and the storage of earlier visits |
| RootLayout.AddsDark | src/app/layout.tsx:50 | the script's condition (`theme-dark`, or a falsy stored value) holds for exactly three stored values: none, the empty string and `theme-dark` |
| RootLayout.StartupClasses | src/app/layout.tsx:50-51 | the script adds `dark` iff the stored value is missing, empty or `theme-dark`. It keeps every other class as it was and never removes a class |
| RootLayout.RunThemeScript | src/app/layout.tsx:48-53 | the inline script changes only the root classes, to `StartupClasses` of the stored theme |
| RootLayout.DarkAfterLoadIff | src/app/layout.tsx:49-51 | a load comes up dark iff nothing, the empty string or `theme-dark` is stored. Every other value, `dark` and `light` included, leaves it light |
| ThemeToggle.StoredValue | src/components/ui/ThemeToggle.tsx:30-36 | the stored value is `dark` for a dark choice and `light` otherwise |
| ThemeToggle.ToggledClasses | src/components/ui/ThemeToggle.tsx:31-35 | after a toggle the class set contains `dark` iff the new theme is dark, and every other class is unchanged |
| ThemeToggle.ToggleTwiceRestores | src/components/ui/ThemeToggle.tsx:29-38 | from a synchronised state, two toggles give back the original class set |
| ThemeToggle.ToggledChoiceNotRestored | src/components/ui/ThemeToggle.tsx:36 | after any toggle the next load comes up light, even when dark was chosen |
| ThemeToggle.IntendedLoadRestoresChoice | src/components/ui/ThemeToggle.tsx:36 | under the corrected start-up rule, a load restores the last toggled choice and a first visit is still dark |
| ThemeToggle.ThemeToggle.constructor | src/components/ui/ThemeToggle.tsx:8-9 | before mount `isDark` is true and `mounted` is false |
| ThemeToggle.ThemeToggle.Mount | src/components/ui/ThemeToggle.tsx:11-14 | mount sets `mounted` and reads `isDark` from the root class set |
| ThemeToggle.ThemeToggle.OnRootClassMutation | src/components/ui/ThemeToggle.tsx:17-19 | each class mutation re-derives `isDark` from the root class set |
| ThemeToggle.ThemeToggle.Toggle | src/components/ui/ThemeToggle.tsx:29-38 | flips `isDark`, edits only `dark` in the class set, and stores the new theme under `theme`. Afterwards `isDark` and the class set agree |
| WebpConversion.Extname | scripts/convert-to-webp.mjs:8 | `path.extname` is empty or a dot followed by no other dot, lies in the last component, and ends the path |
| WebpConversion.ExtnameOf | scripts/convert-to-webp.mjs:8 | for a last component `stem ext` with a non-empty stem: a dot followed by no other dot is the extension whatever dots the stem holds, except for `..`. A stem with no dot after its first character, or `..`, has none |
| WebpConversion.ExtnameInDir | scripts/convert-to-webp.mjs:8 | the same for a file `stem ext` of any directory |
| WebpConversion.ExtnameOfDottedName | scripts/convert-to-webp.mjs:8 | `public/images/logo.min.png` has extension `.png` |
| WebpConversion.ExtnameOfDotFile | scripts/convert-to-webp.mjs:8 | `public/images/.hero.png` has extension `.png` |
| WebpConversion.NoExtnameOfDotFile | scripts/convert-to-webp.mjs:8 | `public/images/.gitignore` has no extension |
| WebpConversion.BasenameOf | scripts/convert-to-webp.mjs:8 | the last component of `dir/base` is `base` |
| WebpConversion.ToLower | scripts/convert-to-webp.mjs:8 | lower-casing maps each character and keeps the length |
| WebpConversion.Join | scripts/convert-to-webp.mjs:41 | `path.join(dir, name)` is `dir`, less a leading `./`, then `/name`; its last component is `name` for a name without separators |
| WebpConversion.FilePathsUnderDir | scripts/convert-to-webp.mjs:37-48 | every file path the walk lists under a directory starts with that directory, less a leading `./`, and a separator, however deep the file is |
| WebpConversion.EntryPathsUnderDir | scripts/convert-to-webp.mjs:41-46 | the same for the paths under one entry of the directory |
| WebpConversion.WalkStaysUnderImages | scripts/convert-to-webp.mjs:37-51 | every file the script visits starts with `public/images/` |
| WebpConversion.ReplaceFirst | scripts/convert-to-webp.mjs:11 | without an occurrence the string is unchanged. Otherwise only the first occurrence is replaced: the text before it is kept, the replacement sits at its position, the text after it is kept, and the length changes by the difference |
| WebpConversion.OutputPath | scripts/convert-to-webp.mjs:8-11 | when the lower-cased extension does not occur in the input, the output path is the input itself. Otherwise `.webp` stands at its first occurrence, and the length changes accordingly |
| WebpConversion.IndexOf | scripts/convert-to-webp.mjs:11 | `indexOf` finds an occurrence with none before it, or reports none when there is no occurrence |
| WebpConversion.Decide | scripts/convert-to-webp.mjs:8-21 | not an image iff the lower-cased extension is not `.png`/`.jpg`/`.jpeg`. Otherwise the output is the rewritten path, and the file is skipped iff that output exists and is strictly newer |
| WebpConversion.ConvertOne | scripts/convert-to-webp.mjs:7-35 | exactly one action is logged for the input. It is `Ignored` iff the file is not an image, `Skipped` iff its output is up to date, `Failed` iff it is to be converted and the encoder fails, and `Converted` iff the encoder succeeds; a conversion or failure names the rewritten output path. A conversion writes only the output, at time `now`. Otherwise the disk is unchanged |
| WebpConversion.NonImageIgnored | scripts/convert-to-webp.mjs:9 | a non-image file gets a silent return: its trace entry is `Ignored` and the disk is unchanged |
| WebpConversion.SvgAndWebpIgnored | scripts/convert-to-webp.mjs:8-9 | `.svg` and `.webp` files, in either case, get the silent return |
| WebpConversion.OutputPathReplacesExtension | scripts/convert-to-webp.mjs:11 | when the only dot of the path starts a lower-case extension, the output path is the path with that extension replaced by `.webp` |
| WebpConversion.EarlierOccurrenceReplaced | scripts/convert-to-webp.mjs:11 | when the extension also occurs earlier in the path, that earlier occurrence is the one replaced, and the output still ends in the original extension |
| WebpConversion.UnmatchedExtensionFails | scripts/convert-to-webp.mjs:8-34 | when the lower-cased extension does not occur in the path, the output path is the input itself and the conversion fails and is logged |
| WebpConversion.UpperCaseExtensionNeverConverted | scripts/convert-to-webp.mjs:8-34 | a `.PNG`, `.JPG` or `.JPEG` file whose only dot starts the extension is never converted; every run logs the same failure |
| WebpConversion.EqualTimesReconvert | scripts/convert-to-webp.mjs:17 | an output exactly as new as its input is not skipped |
| WebpConversion.SecondRunSkips | scripts/convert-to-webp.mjs:14-21 | right after a successful conversion, a second run skips the file and leaves the disk alone |
| WebpConversion.JoinImagesDir | scripts/convert-to-webp.mjs:5-41 | a file `name` of the image directory is visited as `public/images/name` |
| WebpConversion.ConvertAll | scripts/convert-to-webp.mjs:40-47 | running `convertToWebP` on a list of paths in turn logs exactly those paths, in order, after the earlier log. Existing paths stay, and every path whose time changes was written by a logged conversion at time `now` |
| WebpConversion.ConvertAllAppend | scripts/convert-to-webp.mjs:40-47 | a run over `xs + ys` is a run over `xs`, then a run over `ys` from the disk that left |
| WebpConversion.OneRun | scripts/convert-to-webp.mjs:7-35 | one call logs its own input and writes at most the output it logs |
| WebpConversion.Walk | scripts/convert-to-webp.mjs:37-48 | the walk is exactly `convertToWebP` applied to each file under the directory in turn, depth first and in listing order, each call seeing the disk the previous one left. So it logs each file exactly once, never a directory, and writes only what those conversions write |
| WebpConversion.Visit | scripts/convert-to-webp.mjs:42-46 | a directory entry is walked; a file entry gets exactly one `convertToWebP` call (`ConvertOne`) on its joined path |
| WebpConversion.ComposeRuns | scripts/convert-to-webp.mjs:40-47 | two runs in sequence log their files in order, and what either wrote is what both wrote |
| WebpConversion.Converter.constructor | scripts/convert-to-webp.mjs:50-51 | the run starts from the given disk with an empty log |
| WebpConversion.Converter.ConvertToWebP | scripts/convert-to-webp.mjs:7-35 | updates the disk and log in place as `ConvertOne` does |
| WebpConversion.Converter.ProcessDirectory | scripts/convert-to-webp.mjs:37-48 | the loop with recursion updates the disk and log in place as `Walk` does, that is, as `convertToWebP` on each file in turn |

## Left out

- Timing: the typing, deleting and pause delays and the `Math.random()` jitter are not modelled. Each timer firing is one `Tick`.
- AnimatedText.Next: the pause timer at full length is folded into that tick, which sets deleting. This assumes the parent does not re-render during the pause. The hero section passes a new `words` array on every render (src/components/sections/Hero.tsx:107-112), and it re-renders on a theme change. Such a re-render re-runs the effect, and its full-length tick schedules a second `setIsDeleting(true)` that is never cancelled. That call can fire after the advance and turn on deleting while the next word is half typed. `Next` cannot make that transition, so the model does not capture it.
- AnimatedText.Typewriter.constructor: requires a non-empty word list. With an empty list the component reads `words[0]` and then `.length` of `undefined`, which throws.
- All framer-motion animation, springs, opacity and the JSX markup are left out: they are a foreign animation runtime.
- The web3forms `fetch`, its JSON body and access key are replaced by the outcome `Ok`, `NotOk` or `Throws`. The response body is never read by the component.
- The browser's form validation (the `required` attributes and the email syntax check) is an input to `Dispatches`. Email syntax is not modelled.
- `sharp` encoding, its quality setting and the savings percentage (floating point) are left out. Encoding is an input: a set of failing inputs, plus `sharp`'s refusal to write over its own input.
- `readdirSync`, `existsSync` and `statSync` are data: an entry tree and a map from existing paths to times. The listing is taken as fixed for the whole run, so files the run writes are not re-listed.
- WebpConversion.Decide, WebpConversion.ConvertOne, WebpConversion.Walk: every listed non-directory entry is assumed to stat (`input in stamps`, `Listed`). A listed entry that does not stat, such as a dangling symlink `x.png` or a file removed after `readdirSync`, is not modelled. Next to an existing `.webp`, the script's `statSync(inputPath)` at scripts/convert-to-webp.mjs:15 throws outside the `try`. The rejection passes through `await convertToWebP` and `await processDirectory`, so the rest of the walk is not visited and `Done!` is not printed. Without an output the throw at line 24 is caught and logged instead, and a non-image returns silently. The model's walk visits every file and always finishes.
- WebpConversion.ConvertOne: every successful write gets the one time `now` of the run; a real clock would advance.
- AnimatedText.Letters, AnimatedText.Next, WebpConversion.Extname: a Dafny `string` is a sequence of Unicode scalar values, but JavaScript strings are UTF-16 code units. `split("")`, `slice`, `.length`, `extname` and `replace` count and cut code units, so a character outside the Basic Multilingual Plane (an emoji) is two items or two typing steps in the source and one in the model. The words and file names in use are ASCII, where the two agree.
- WebpConversion.ToLower: lower-cases ASCII letters only; JavaScript's `toLowerCase` also maps non-ASCII letters.
- WebpConversion.Join: `path.join` normalisation is modelled only as stripping one leading `./` of the directory; entry names hold no separators. FilePathsUnderDir therefore requires a directory that is not `.` and does not start with `./` once that prefix is stripped, where full normalisation would be needed.
- The console output is not modelled. The `log` of a `Disk` is a trace with one entry per visited file: `Ignored` stands for the silent return of a non-image, and `Skipped`, `Converted` and `Failed` for the three messages the script prints.
- The `mounted` placeholder rendering and the button icons are markup and are left out. The observer's disconnect on unmount is not modelled.
- The other pages and components (header, loading screen, hero, skills, cards, footer) are not part of this model.

## Findings

| source | as written | input that shows it | evidently intended | confidence | as-written member | corrected member |
|---|---|---|---|---|---|---|
| src/app/layout.tsx:50 | the start-up script adds `dark` only for a stored `theme-dark`, an empty string or nothing, but the toggle (src/components/ui/ThemeToggle.tsx:36) stores `dark` or `light` | choose dark with the toggle, then reload: `theme` is `dark`, the script adds nothing, and the page comes up light | the script also recognises the stored `dark`, so the last choice survives a reload | high; not executed | ThemeToggle.ToggledChoiceNotRestored | ThemeToggle.IntendedLoadRestoresChoice |
