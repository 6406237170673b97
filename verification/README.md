# genweb core, modelled in Dafny

genweb is a web app that turns a prompt into a small project. A language model streams back
text that holds `<boltArtifact …>` sections. The client recovers build steps from them, and
each `CreateFile` step is turned into a tree of files and folders shown in a code editor. The
profile pages let a user edit skills, projects and achievements. Sign-up and sign-in forms
validate their fields before a simulated request.

This project models that core and proves what it does:

- **The file-tree materializer** of the `useCodeEditor` hook
  (`file_paths.dfy`, `file_forest.dfy`, `forest_facts.dfy`, `step_facts.dfy`,
  `code_editor.dfy`).
  - The file forest is an arena. `items` maps each node's `path` to the node. `children` maps a
    folder's path, or `""` for the top-level list, to the ordered paths of its children.
  - Class `CodeEditor` holds the forest and the step list.
  - `WalkSegments` is the hook's `while (parsedPath.length)` loop over a copy of the forest.
    `MaterializeStep` adds the top-level sort. `RunEffect` is the pass over the pending steps,
    which sets the forest and the steps after each applied `CreateFile` step.
  - Each method is proved against the functions `Walk`, `Apply` and `RunPending`. The lemmas
    about those functions state the hook's guarantees:
    - one node per path;
    - the folders on a file's path exist;
    - a second write to a path overwrites instead of duplicating;
    - two files under `a/` share one folder;
    - the top-level list is sorted;
    - nodes off the path do not change;
    - a step fails exactly when a folder segment names an existing file.
- **The profile editors** (`profile_lists.dfy`, `skills.dfy`, `projects.dfy`,
  `achievements.dfy`).
  - Shared list operations: replace by id, remove by id, ids built from the clock, and a sorted
    copy, highest key first.
  - One class per editor with its `handleSubmit`, `startEditing`, `handleDelete` and
    `resetForm`.
  - The pure view helpers: skill tiers, colours and stars; the project count label and the
    shown link; achievement order, plural suffix and accent side.
- **The sign-up and sign-in forms** (`credentials.dfy`, `auth_forms.dfy`).
  - The email rule is defined once as an explicit test, and proved equal to what the pattern
    `^[^\s@]+@[^\s@]+\.[^\s@]+$` accepts.
  - The password rule is a length of at least 8.
  - The field errors come from an if/else chain per field.
  - A class per page holds `handleSubmit`.
- **The chat splitter** (`chat.dfy`).
  - The global lazy `replace` of `<boltArtifact[\s\S]*?</boltArtifact>` by `<>---<>` is written
    as a character scan.
  - The `split("<>")` and the choice of what each item renders follow it.

## Model

| member | source | states |
|---|---|---|
| CodeEditorHook.WalkSegments | client/src/hooks/useCodeEditor.ts:16-61 | The segment loop over a copy of the forest succeeds exactly when `Walk` does, and then returns the forest `Walk` gives. Otherwise it returns the forest it was given: the throw on a folder segment that names a file comes before any push. |
| CodeEditorHook.MaterializeStep | client/src/hooks/useCodeEditor.ts:12-69 | One `CreateFile` step keeps a valid forest valid, with a sorted top-level list. It succeeds exactly when `Apply` does and returns `Apply`'s forest. On failure it returns the forest it was given. |
| CodeEditorHook.CodeEditor.RunEffect | client/src/hooks/useCodeEditor.ts:7-84 | The effect keeps the forest valid and sorted at the top. Its end state is `RunPending` over the pending steps in list order. |
| CodeEditorHook.CodeEditor.constructor | client/src/hooks/useCodeEditor.ts:5 | The hook starts with an empty, valid forest. |
| CodeEditorHook.RunPending | client/src/hooks/useCodeEditor.ts:9-80 | After any batch the step list is either untouched or entirely completed. |
| CodeEditorHook.RunPendingSkip | client/src/hooks/useCodeEditor.ts:9-11 | A step other than `CreateFile` is passed over. |
| CodeEditorHook.RunPendingStop | client/src/hooks/useCodeEditor.ts:59 | A `CreateFile` step whose walk throws ends the run with the state reached before it. |
| CodeEditorHook.RunPendingApply | client/src/hooks/useCodeEditor.ts:62-80 | A `CreateFile` step that applies sets the forest and completes every step before the next step is visited. |
| CodeEditorHook.RunPendingValid | client/src/hooks/useCodeEditor.ts:9-80 | Any batch of steps leaves the forest valid, with a sorted top-level list. |
| CodeEditorHook.RunPendingSteps | client/src/hooks/useCodeEditor.ts:9-11 | Afterwards the step list is either untouched or entirely completed. A batch without `CreateFile` steps changes neither the forest nor the steps. |
| CodeEditorHook.RunPendingCompletes | client/src/hooks/useCodeEditor.ts:9-80 | When the first `CreateFile` step of the batch applies, wherever it sits, every step ends completed, whatever the later steps do. |
| BuildSteps.MarkCompleted | client/src/hooks/useCodeEditor.ts:73-79 | The status update keeps the length and every other field of each step, and sets every status to completed. |
| BuildSteps.MarkCompletedIdempotent | client/src/hooks/useCodeEditor.ts:73-79 | Marking an already completed list again changes nothing. |
| BuildSteps.PendingSteps | client/src/hooks/useCodeEditor.ts:9 | The filter keeps exactly the steps whose status is pending. |
| BuildSteps.PendingStepsConcat | client/src/hooks/useCodeEditor.ts:9 | The filter works piecewise, so the pending steps keep their list order. |
| FileForest.LanguageOf | client/src/hooks/useCodeEditor.ts:23-32 | The language is `typescript` exactly for paths ending `.ts` or `.tsx`, and `javascript` for every other path. |
| FileForest.Walk | client/src/hooks/useCodeEditor.ts:16-61 | A successful walk keeps every child list closed over the nodes and keeps every existing list. |
| FileForest.SortRoot | client/src/hooks/useCodeEditor.ts:62-69 | The top-level list is re-sorted as a permutation of itself. Nodes and nested lists stay as they are. |
| FileForest.SortTopSorted | client/src/hooks/useCodeEditor.ts:62-69 | The sorted copy puts all folders before all files, and each group in name order. |
| FileForest.InsertSorted | client/src/hooks/useCodeEditor.ts:62-69 | Inserting into a sorted list by the comparator keeps it sorted. |
| FileForest.PrecedesTotal | client/src/hooks/useCodeEditor.ts:62-69 | Any two nodes are ordered one way or the other by the comparator. |
| FileForest.PrecedesTrans | client/src/hooks/useCodeEditor.ts:62-69 | The comparator's order is transitive. |
| FileForest.Overwrite | client/src/hooks/useCodeEditor.ts:41-45 | Overwriting keeps the node's kind, name and path. A file gets the code and keeps its language. A folder gets the code as stray content. |
| FileForest.AddFolderEffect | client/src/hooks/useCodeEditor.ts:48-57 | A pushed folder is a new empty node listed last under its parent, with a list of its own. Every other node and list is unchanged. |
| FileForest.PutLeafEffect | client/src/hooks/useCodeEditor.ts:22-45 | A leaf already listed under its parent is overwritten in place, with no list changed. Otherwise a new file with the path's language is pushed last onto the parent's list. Every other node is unchanged. |
| FileForest.SegmentsOfPath | client/src/hooks/useCodeEditor.ts:12 | The segments join back to the path and none holds a `/`. A step without a path has no segments. |
| FileForest.Insert | client/src/hooks/useCodeEditor.ts:62-69 | Insertion adds exactly the one key to the list, counted as a multiset. |
| FileForest.SortTop | client/src/hooks/useCodeEditor.ts:62-69 | The sorted copy is a permutation of the top-level list. |
| FileForest.Apply | client/src/hooks/useCodeEditor.ts:12-69 | A successful step keeps the child lists closed and keeps every existing list. |
| Common.NameLeTotal | client/src/hooks/useCodeEditor.ts:68 | The name order is total. |
| Common.NameLeTrans | client/src/hooks/useCodeEditor.ts:68 | The name order is transitive. |
| Common.NameLeAntisym | client/src/hooks/useCodeEditor.ts:68 | Names ordered both ways are equal. |
| FilePaths.Split | client/src/hooks/useCodeEditor.ts:12 | `split("/")` gives at least one segment, none holding a `/`, and joining them restores the path. |
| FilePaths.SplitJoin | client/src/hooks/useCodeEditor.ts:12 | Splitting joined slash-free segments gives them back. |
| FilePaths.ParentOfChild | client/src/hooks/useCodeEditor.ts:17 | The parent of `p/name` is `p`. |
| FilePaths.LeafIsJoin | client/src/hooks/useCodeEditor.ts:17 | The leaf's path is the start path, `/`, then the segments joined by `/`. |
| ForestFacts.AddFolderValid | client/src/hooks/useCodeEditor.ts:48-57 | Pushing a missing folder keeps the forest valid. |
| ForestFacts.PutLeafValid | client/src/hooks/useCodeEditor.ts:22-45 | Creating or overwriting the leaf keeps the forest valid. |
| ForestFacts.SortRootValid | client/src/hooks/useCodeEditor.ts:62-69 | The top-level sort keeps the forest valid. |
| ForestFacts.NamesDistinct | client/src/hooks/useCodeEditor.ts:48 | Two entries of one child list never have the same name, so a lookup by path finds at most one node. |
| WalkFacts.DescendValid | client/src/hooks/useCodeEditor.ts:48-59 | Descending through a folder segment keeps the forest valid, and the folder then exists. |
| WalkFacts.WalkValid | client/src/hooks/useCodeEditor.ts:16-61 | The segment walk keeps the forest valid. |
| WalkFacts.WalkKeys | client/src/hooks/useCodeEditor.ts:16-61 | The walk adds exactly the paths on the way that were missing, and no others. |
| WalkFacts.ValidFreshAlong | client/src/hooks/useCodeEditor.ts:48-57 | In a valid forest, a path on the way that is not listed under its parent is not a node at all. |
| WalkFacts.WalkKeepsOthers | client/src/hooks/useCodeEditor.ts:16-61 | Every node except the leaf keeps its value. |
| WalkFacts.WalkLeaf | client/src/hooks/useCodeEditor.ts:22-45 | An existing node at the leaf path gets the code whatever its kind. Otherwise a new file named by the last segment holds it, with the language of its extension. |
| WalkFacts.WalkFolders | client/src/hooks/useCodeEditor.ts:48-59 | Every node on the way to the leaf is a folder afterwards. |
| WalkFacts.WalkChildren | client/src/hooks/useCodeEditor.ts:33-57 | Child lists are only pushed to, by at most one path each. Lists off the path are unchanged. |
| WalkFacts.WalkFails | client/src/hooks/useCodeEditor.ts:59 | The walk fails exactly when a folder segment names an existing file. |
| StepFacts.ApplyValid | client/src/hooks/useCodeEditor.ts:12-69 | A step keeps the forest valid and leaves the top-level list sorted. |
| StepFacts.ApplyKeepsValid | client/src/hooks/useCodeEditor.ts:12-69 | A successful step keeps the forest valid. |
| StepFacts.ApplyFails | client/src/hooks/useCodeEditor.ts:48-59 | A step fails exactly when one of the folders on its path is an existing file. |
| StepFacts.ApplyKeys | client/src/hooks/useCodeEditor.ts:12-69 | A step adds exactly the missing nodes on its path, and nothing else. |
| StepFacts.ApplyLeaf | client/src/hooks/useCodeEditor.ts:22-45 | The node at `"/" + path` holds the code. It is the overwritten old node if there was one, or else a new file with the last segment as its name and the extension's language. |
| StepFacts.ApplyKeepsOthers | client/src/hooks/useCodeEditor.ts:16-61 | Every node other than the step's leaf keeps its value. |
| StepFacts.LeafOfStep | client/src/hooks/useCodeEditor.ts:17 | The leaf's path is `"/"` followed by the step's path. |
| StepFacts.ApplyFolders | client/src/hooks/useCodeEditor.ts:17-59 | The node at `"/"` plus the first k segments is a folder named by the k-th segment. |
| StepFacts.InnerFolders | client/src/hooks/useCodeEditor.ts:48-59 | Every inner path of the step is a folder afterwards. |
| StepFacts.PrefixNodePath | client/src/hooks/useCodeEditor.ts:17 | The path after k segments is its parent's path, `/`, then the k-th segment. |
| StepFacts.SamePathSucceeds | client/src/hooks/useCodeEditor.ts:48-59 | A second step with the same path cannot fail. |
| StepFacts.SamePathKeys | client/src/hooks/useCodeEditor.ts:33-45 | A second step with the same path adds no node. |
| StepFacts.SamePathLeaf | client/src/hooks/useCodeEditor.ts:41-45 | A second step with the same path writes its code into the node the first step left. |
| StepFacts.SamePathTwice | client/src/hooks/useCodeEditor.ts:22-45 | Overwrite, not duplicate: the second step succeeds, adds no node, and writes its code into the existing node. |
| StepFacts.TwoSegments | client/src/hooks/useCodeEditor.ts:12-17 | The step `a/b` visits exactly the folder `/a` and the leaf `/a/b`. |
| StepFacts.SharedFolderKeys | client/src/hooks/useCodeEditor.ts:48-59 | Steps `a/b` and then `a/c` add exactly `/a`, `/a/b` and `/a/c`. |
| StepFacts.SharedFolder | client/src/hooks/useCodeEditor.ts:48-59 | Two files under `a/` share one folder `/a`, which lists both. |
| StepFacts.ListedUnder | client/src/hooks/useCodeEditor.ts:33-57 | In a valid forest a node `p/name` is listed under `p`. |
| ProfileLists.ReplaceById | client/src/components/profile/SkillsView.tsx:38-40 | The edit keeps the length and every id. Records with the id take the form's data, and every other record is unchanged. |
| ProfileLists.ReplaceByIdIdempotent | client/src/components/profile/SkillsView.tsx:38-40 | Replacing twice with the same data is replacing once. |
| ProfileLists.RemoveById | client/src/components/profile/SkillsView.tsx:65-68 | Deletion keeps exactly the records whose id differs. A missing id changes nothing. |
| ProfileLists.RemoveByIdConcat | client/src/components/profile/SkillsView.tsx:65-68 | Removal works piecewise, so the kept records stay in their order. |
| ProfileLists.Decimal | client/src/components/profile/SkillsView.tsx:48 | The clock reading is written as a non-empty run of decimal digits. |
| ProfileLists.DecimalInjective | client/src/components/profile/SkillsView.tsx:48 | Different clock readings give different digit strings. |
| ProfileLists.ClockIdInjective | client/src/components/profile/SkillsView.tsx:48 | Ids made with one prefix at different times differ. |
| ProfileLists.SortDesc | client/src/components/profile/SkillsView.tsx:80 | The sorted copy is a permutation of the list. |
| ProfileLists.SortDescSorted | client/src/components/profile/SkillsView.tsx:80 | The sorted copy is ordered by key, highest first. |
| ProfileLists.InsertDescSorted | client/src/components/profile/SkillsView.tsx:80 | Insertion keeps a list ordered highest first. |
| ProfileLists.Filter | client/src/components/profile/SkillsView.tsx:83-85 | The filter keeps exactly the records the test accepts. |
| ProfileLists.FilterConcat | client/src/components/profile/SkillsView.tsx:83-85 | The filter works piecewise, so the kept records stay in their order. |
| ProfileLists.FilterKeepsOrder | client/src/components/profile/SkillsView.tsx:80-85 | Filtering a list ordered highest first leaves it ordered highest first. |
| ProfileLists.ClockId | client/src/components/profile/SkillsView.tsx:48 | The id is the prefix followed by at least one character, every one a decimal digit. |
| SkillsView.ExpertSkills | client/src/components/profile/SkillsView.tsx:83 | The expert list holds exactly the sorted skills at level 8 or more, still ordered by level. |
| SkillsView.IntermediateSkills | client/src/components/profile/SkillsView.tsx:84 | The intermediate list holds exactly the sorted skills at levels 5 to 7, still ordered by level. |
| SkillsView.BeginnerSkills | client/src/components/profile/SkillsView.tsx:85 | The beginner list holds exactly the sorted skills below level 5, still ordered by level. |
| SkillsView.SortedSkills | client/src/components/profile/SkillsView.tsx:80 | `sortedSkills` is a permutation of the skills, ordered by level, highest first. |
| SkillsView.TiersPartition | client/src/components/profile/SkillsView.tsx:83-85 | The expert, intermediate and beginner lists together hold each skill as often as the sorted list does, and each skill is in exactly one of them. |
| SkillsView.SkillColor | client/src/components/profile/SkillsView.tsx:87-91 | Each gradient is chosen exactly for the levels of its tier, the same tiers as the filters. |
| SkillsView.SkillBgColor | client/src/components/profile/SkillsView.tsx:93-97 | Each background is chosen exactly for the levels of its tier. |
| SkillsView.SkillTextColor | client/src/components/profile/SkillsView.tsx:99-103 | Each text colour is chosen exactly for the levels of its tier. |
| SkillsView.StarCount | client/src/components/profile/SkillsView.tsx:251 | The star count is half the level rounded down. A negative level has no count, because the `Array` constructor throws. |
| SkillsView.SkillsEditor.constructor | client/src/components/profile/SkillsView.tsx:17-23 | The editor starts with the given skills, a closed blank form and nothing being edited. |
| SkillsView.SkillsEditor.HandleSubmit | client/src/components/profile/SkillsView.tsx:33-57 | While editing, the skills with the edited id take the form's data and the edit ends. Otherwise one skill with the clock id is appended after the unchanged list. The form is then blank and closed. |
| SkillsView.SkillsEditor.StartEditing | client/src/components/profile/SkillsView.tsx:59-63 | The skill is loaded into the open form, and its id is edited when truthy. |
| SkillsView.SkillsEditor.HandleDelete | client/src/components/profile/SkillsView.tsx:65-68 | A falsy id changes nothing. Otherwise the skills with that id are removed, and the form is left alone. |
| SkillsView.SkillsEditor.ResetForm | client/src/components/profile/SkillsView.tsx:70-77 | The form is blank and closed, nothing is being edited, and the list is untouched. |
| ProjectsView.CountLabel | client/src/components/profile/ProjectsView.tsx:95 | The label is `project` exactly when the count is 1, and `projects` otherwise. |
| ProjectsView.StripScheme | client/src/components/profile/ProjectsView.tsx:298 | The shown link is the link minus nothing, `http://` or `https://` at its start. |
| ProjectsView.StripSchemeOnce | client/src/components/profile/ProjectsView.tsx:298 | Exactly one leading scheme is dropped, and the rest is shown as written. |
| ProjectsView.StripSchemeNoScheme | client/src/components/profile/ProjectsView.tsx:298 | A link without a scheme is shown unchanged. |
| ProjectsView.ProjectsEditor.constructor | client/src/components/profile/ProjectsView.tsx:20-28 | The editor starts with the given projects, a closed blank form and nothing being edited. |
| ProjectsView.ProjectsEditor.HandleSubmit | client/src/components/profile/ProjectsView.tsx:38-64 | While editing, the projects with the edited id take the form's data and the edit ends. Otherwise one project with the clock id is appended. All four fields are then empty and the form is closed. |
| ProjectsView.ProjectsEditor.StartEditing | client/src/components/profile/ProjectsView.tsx:66-70 | The project is loaded into the open form, and `editingId` is its id, or none when the id is falsy. |
| ProjectsView.ProjectsEditor.HandleDelete | client/src/components/profile/ProjectsView.tsx:72-75 | A falsy id changes nothing. Otherwise the matching projects are removed. |
| ProjectsView.ProjectsEditor.ResetForm | client/src/components/profile/ProjectsView.tsx:77-86 | The form is cleared, nothing is being edited, and the list is untouched. |
| AchievementsView.SortedAchievements | client/src/components/profile/AchievementsView.tsx:85-87 | The sorted copy is a permutation of the achievements, ordered by date, newest first. |
| AchievementsView.PluralSuffix | client/src/components/profile/AchievementsView.tsx:103 | The suffix is `s` exactly when the count is not 1. |
| AchievementsView.AccentAlternates | client/src/components/profile/AchievementsView.tsx:222-248 | The accent side starts on the left and alternates with the index's parity. |
| AchievementsView.AchievementsEditor.constructor | client/src/components/profile/AchievementsView.tsx:19-26 | The editor starts with the given achievements, a closed form dated today and nothing being edited. |
| AchievementsView.AchievementsEditor.HandleSubmit | client/src/components/profile/AchievementsView.tsx:36-61 | While editing, the achievements with the edited id take the form's data and the edit ends. Otherwise one achievement with the clock id is appended. The form is then blank, dated today, and closed. |
| AchievementsView.AchievementsEditor.StartEditing | client/src/components/profile/AchievementsView.tsx:63-67 | The achievement is loaded into the open form, and its id is edited when truthy. |
| AchievementsView.AchievementsEditor.HandleDelete | client/src/components/profile/AchievementsView.tsx:69-72 | A falsy id changes nothing. Otherwise the matching achievements are removed. |
| AchievementsView.AchievementsEditor.ResetForm | client/src/components/profile/AchievementsView.tsx:74-82 | The form is blank and dated today, nothing is being edited or added, and the list is untouched. |
| Credentials.ValidEmail | client/src/pages/signup.tsx:15-18 | An accepted email has at least five characters and an `@`. |
| Credentials.ValidPassword | client/src/pages/signup.tsx:20-22 | An accepted password is not empty, so the required check always comes first. |
| Credentials.FirstAt | client/src/pages/signup.tsx:15-18 | The index of the first `@`, or the length when there is none. |
| Credentials.ValidEmailIffPattern | client/src/pages/signup.tsx:15-18 | The explicit test accepts exactly what the email pattern accepts: one `@`, no whitespace, a non-empty local part, and a domain with an inner `.`. |
| Credentials.ValidEmailMatchesPattern | client/src/pages/signup.tsx:15-18 | Every address the explicit test accepts matches the pattern. |
| Credentials.PatternIsValidEmail | client/src/pages/signup.tsx:15-18 | Every address the pattern matches passes the explicit test. |
| Credentials.EmailError | client/src/pages/signup.tsx:31-35 | An empty email is required. Otherwise an invalid one is reported as invalid. A valid one has no error, and never both messages. |
| Credentials.PasswordError | client/src/pages/signup.tsx:37-41 | An empty password is required. Otherwise one shorter than 8 gets the length message. A long enough one has no error. |
| SignupPage.ConfirmError | client/src/pages/signup.tsx:43-47 | An empty confirmation is required. Otherwise one that differs from the password does not match. An equal one has no error. |
| SignupPage.FieldErrors | client/src/pages/signup.tsx:29-47 | The email and the password have no error exactly when they are valid. The confirmation has none exactly when it is non-empty and equals the password. The required message appears exactly for an empty email or password. |
| SignupPage.HasErrors | client/src/pages/signup.tsx:49 | The form has errors exactly when some field holds a message. |
| SignupPage.SignupAccepts | client/src/pages/signup.tsx:49-52 | The form has no error exactly when the email is valid, the password has at least 8 characters, and the confirmation repeats it. |
| SignupPage.SignupForm.constructor | client/src/pages/signup.tsx:7-13 | The page starts with empty fields, no errors, no message and no loading. |
| SignupPage.SignupForm.HandleSubmit | client/src/pages/signup.tsx:24-64 | Errors and message are cleared first. The submission goes through exactly when no field has an error, and then shows the success message. Otherwise the field errors are set. |
| SigninPage.FieldErrors | client/src/pages/signin.tsx:28-40 | Each field has no error exactly when it is valid. The required message appears exactly for an empty field. |
| SigninPage.HasErrors | client/src/pages/signin.tsx:42 | The form has errors exactly when some field holds a message. |
| SigninPage.SigninAccepts | client/src/pages/signin.tsx:42-45 | The form has no error exactly when the email is valid and the password has at least 8 characters. |
| SigninPage.SigninForm.constructor | client/src/pages/signin.tsx:7-12 | The page starts with empty fields, no errors, no message and no loading. |
| SigninPage.SigninForm.HandleSubmit | client/src/pages/signin.tsx:23-57 | Errors and message are cleared first. The submission goes through exactly when neither field has an error, and then shows the success message. Otherwise the field errors are set. |
| ChatBox.FindFrom | client/src/components/chatbox.tsx:8 | Finds the first occurrence at or after a position, or reports that there is none. |
| ChatBox.ArtifactEnd | client/src/components/chatbox.tsx:8 | A match starts at a position exactly when the opening tag is there and a closing tag follows it. It then ends right after the first such closing tag, within the text. |
| ChatBox.ReplaceFrom | client/src/components/chatbox.tsx:7-8 | The replacement from a position is never longer than the rest of the text. |
| ChatBox.ReplaceArtifacts | client/src/components/chatbox.tsx:7-8 | The replaced text is never longer than the content. |
| ChatBox.Scan | client/src/components/chatbox.tsx:8 | The text splits into one more text run than matched spans. |
| ChatBox.ScanOriginal | client/src/components/chatbox.tsx:8 | Weaving the text runs with the matched spans restores the input, so the text outside artifacts is kept in order. |
| ChatBox.ScanShown | client/src/components/chatbox.tsx:7-9 | The replacement is the same text runs woven with one `<>---<>` per matched span. |
| ChatBox.ScanSpans | client/src/components/chatbox.tsx:8 | Every replaced span is a shortest match: it starts with `<boltArtifact`, ends with the first `</boltArtifact>` after it, and holds no earlier closing tag. |
| ChatBox.MatchedSpan | client/src/components/chatbox.tsx:8 | The span found from an opening tag is a shortest match. |
| ChatBox.ScanTextsClean | client/src/components/chatbox.tsx:8 | The replace is global: no text run left between the replaced spans holds a complete artifact. |
| ChatBox.ScanPlain | client/src/components/chatbox.tsx:8 | Text without `<` holds no match and is copied to the front of the first run. |
| ChatBox.ScanCopies | client/src/components/chatbox.tsx:8 | A character other than `<` starts no match and is copied to the front of the first run. |
| ChatBox.MatchEnds | client/src/components/chatbox.tsx:8 | A shortest match from one position to another is exactly what the pattern matches at the first. |
| ChatBox.TagsAt | client/src/components/chatbox.tsx:8 | A shortest match has the opening tag at its start, the closing tag at its end, and no closing tag between. |
| ChatBox.FirstFrom | client/src/components/chatbox.tsx:8 | The search finds an occurrence when there is none before it. |
| ChatBox.ScanMatch | client/src/components/chatbox.tsx:8 | A shortest match is taken whole as one replaced span, and the scan goes on after it. |
| ChatBox.ScanPlainEnd | client/src/components/chatbox.tsx:8 | Text without `<` up to the end is one run with no match. |
| ChatBox.ScanPlainBefore | client/src/components/chatbox.tsx:8 | Text without `<` before a match is the run in front of it. |
| ChatScanFacts.MatchAfterPlain | client/src/components/chatbox.tsx:8 | Text without `<` and then a shortest match give one run, the match, and then the scan after it. |
| ChatScanFacts.OneMatchAt | client/src/components/chatbox.tsx:8 | One shortest match among text without `<` gives the run before it, the match, and the run after it. |
| ChatScanFacts.TwoMatchesAt | client/src/components/chatbox.tsx:8 | Two shortest matches among text without `<` give three runs around the two matches. |
| ChatScanFacts.TwoArtifactsScan | client/src/components/chatbox.tsx:8 | The replace does not stop at the first artifact: with two artifacts both are found, with the three runs around them. |
| ChatScanFacts.TwoArtifacts | client/src/components/chatbox.tsx:7-8 | Two artifacts are both replaced: the count is 2, and the result is the first run, a marker, the middle run, a marker, and the last run. |
| ChatBox.ReplaceShrinks | client/src/components/chatbox.tsx:7-9 | Each replacement shortens the text by 21 characters plus the span's content between the tags. |
| ChatBox.ScanFinds | client/src/components/chatbox.tsx:8 | An opening tag followed by a closing tag yields at least one replaced span. |
| ChatBox.ScanFindsNothing | client/src/components/chatbox.tsx:8 | Text without a complete artifact has no replaced span. |
| ChatBox.ReplaceUnchangedIff | client/src/components/chatbox.tsx:7-9 | The replacement leaves the input unchanged exactly when it holds no complete artifact. |
| ChatBox.UnclosedStaysRaw | client/src/components/chatbox.tsx:8 | From an opening tag with no later closing tag, as at a streaming tail, the text is left raw. |
| ChatBox.ChatItems | client/src/components/chatbox.tsx:10 | The panel has at least one item, and joining the items with `<>` gives the replaced text. |
| ChatBox.SplitItems | client/src/components/chatbox.tsx:10 | `split("<>")` gives at least one item. |
| ChatBox.SplitJoin | client/src/components/chatbox.tsx:10 | Joining the items with `<>` restores the split string. |
| ChatBox.SplitAfter | client/src/components/chatbox.tsx:10 | Splitting `a<>b` with no `<>` in `a` gives `a` and then the items of `b`. |
| ChatBox.SplitMarked | client/src/components/chatbox.tsx:7-10 | Splitting runs woven with markers gives the runs with a `---` item between each pair. |
| ChatBox.InterleaveShape | client/src/components/chatbox.tsx:10 | The even items are the text runs and the odd items are `---`. |
| ChatBox.ScanTextsPlain | client/src/components/chatbox.tsx:8-10 | Input with no `<>` has text runs with no `<>`. |
| ChatBox.ChatItemsOfPlainText | client/src/components/chatbox.tsx:7-10 | For input with no `<>`, the items are the text runs with one `---` per artifact between them, 2·n+1 items in all. Joining them with `<>` restores the replaced string. |
| ChatBox.RenderItems | client/src/components/chatbox.tsx:15-29 | An item renders the steps list exactly when it equals `---`, and text otherwise. |
| ChatBox.PlainDashesShowSteps | client/src/components/chatbox.tsx:15-29 | As written, a message that is just `---` holds no artifact but renders the steps list. |
| ChatBox.CountBlocksOf | client/src/components/chatbox.tsx:15-29 | The corrected rendering of n text runs shows the steps list n−1 times. |
| ChatBox.BlocksOfShape | client/src/components/chatbox.tsx:15-29 | The corrected rendering puts the text runs at the even places and the steps list between them. |
| ChatBox.BlocksMatchArtifacts | client/src/components/chatbox.tsx:7-29 | The corrected rendering shows the steps list exactly once per replaced artifact, and every text run as text. |
| ChatBox.RenderMatchesBlocks | client/src/components/chatbox.tsx:15-29 | When no text run is `---`, the rendering as written equals the corrected one. |
| ChatBox.ChatPanelFaithful | client/src/components/chatbox.tsx:7-29 | For content with no `<>` and no run equal to `---`, the panel as written shows exactly the corrected blocks. |

## Left out

- Network I/O, the stream reader and the step parser of the chat hook are not part of this
  model. The artifact parser's source is not shown. Steps enter the model as a list, and
  message text as a string.
- The server is not part of this model: routes, language-model calls, the database and
  token checks.
- React's scheduling is not modelled. `RunEffect` is one run of the effect body. The re-run that
  `setFiles`/`setSteps` trigger through the dependency list is not modelled, and neither is
  `setState` batching.
- Aliasing of the forest's child arrays is not modelled. The hook pushes into nested
  `children` arrays in place, and those arrays are shared with the previous state through
  shallow copies. The arena model replaces each state by a new value, so it does not show that
  an earlier `files` state sees the same pushes.
- `CodeEditorHook.CodeEditor.RunEffect`: the failing step throws out of the whole effect, which
  is shown as an early return keeping the state reached so far. The error that then reaches
  React is not modelled.
- `FileForest.SortTop`: `localeCompare` is replaced by code-point (Unicode scalar value)
  order of the names (`Common.NameLe`). The sort's stability is not stated, only the order and
  the permutation.
- `ProfileLists.SortDesc`: the key subtraction is compared as integers. Stability is not
  stated.
- `ProfileLists.ClockIdInjective`: `Date.now()` is a parameter `now`. The source does not make
  ids unique, since two adds in one millisecond collide. Only that different readings give
  different ids is proved.
- `AchievementsView.SortedAchievements`: dates are abstract integer keys. `new Date(...)`,
  `toISOString` and `toLocaleDateString` parsing and formatting are not modelled, and
  neither is an invalid date's NaN.
- Lengths and indices are Dafny characters, not UTF-16 code units. `Credentials.IsSpace` lists
  the characters JavaScript's `\s` matches.
- The simulated sign-up and sign-in requests (a timer, then the message) are reduced to their
  end state. The `catch` branch cannot be reached from the code shown and is not modelled.
- The `Step` type is imported from a shared types file, which is not part of this model. Only
  the fields the hook reads are kept, and every step kind other than `CreateFile` is
  `RunScript`.
- The `handleChange` handlers of the three editors are not modelled. The form data is a plain
  field of each class, and the skill level's `parseInt` of typed text is left out.
- Rendering is not modelled beyond the choice of block per chat item: the JSX markup, the
  step titles listed in the steps block, colours and layout.

Behaviours of the code that the model keeps as written:

- Only the top-level list is sorted. Nested `children` keep insertion order.
- A non-final segment that names an existing file makes the hook throw, and the effect ends
  there.
- The leaf lookup matches by path whatever the node type. A folder found there gets a stray
  `content`, which is `strayContent` here.
- Every step is marked completed after each applied `CreateFile` step, and only then.

## Findings

| source | as written | input that shows it | evidently intended | confidence | as-written member | corrected member |
|---|---|---|---|---|---|---|
| client/src/components/chatbox.tsx:10-29 | Every item of `split("<>")` equal to `---` renders the steps list, including an item that was written by the model itself | the message `---` (a markdown rule): it holds no artifact, but renders the steps list instead of the text | the steps list exactly once per replaced artifact, and every text run shown as text | low, not executed | ChatBox.PlainDashesShowSteps | ChatBox.BlocksMatchArtifacts |
