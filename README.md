# UCST e-learning chef: tree assembly, in Dafny

This project models the core of `sushichef.py`, the chef that turns the
University College of Science and Technology's curriculum file (grades →
subjects → YouTube playlist urls) into the channel tree handed to ricecooker.
The model covers:

- **URL normalisers** of `YouTubeResourceNode`: `clean_url`, `transform_embed`
  and `is_youtube` (module `Resource`, over the Python `str` operations in
  module `Text`).
- **Playlist resolution** (`playlist_name_links`). Its cache directory is a
  `VideoListStore` class holding a map from hash to stored list. The
  resolution is specified by the function `Resolve`.
- **Video rendering**: `subtitles_dict`, `download` and `to_dict` of the leaf
  node.
- **`Node` and its ordered child table** (`tree_nodes`, module `ChildTable`):
  `add_node` stores under the child's `source_id` with last write wins, and
  `to_dict` renders a topic.
- **Lesson, subject and grade nodes** (module `Nodes`): the lesson collapsing
  rule, `auto_generate_lessons` (specified by `Generate`) and `add_subject`.
- **`GradeJsonTree.load`** over the parsed file (module `Loader`, specified by
  `LoadGrades`).
- **`UCSTChef.lessons` and `scrape`** (module `Chef`): three nested loops, each
  proved to produce the records the functions `LessonRecord`, `SubjectRecord`,
  `GradeRecord` and `ChannelTree` describe.
- **Re-runs with `LOAD_VIDEO_LIST` on**: a second `load` or `scrape` over the
  cache the first left behind builds the same tree and expands no playlist
  (`Loader.LoadReuseIdempotent`, `Chef.ChannelReuseIdempotent`,
  `Chef.ScrapeTwice`).

The source's classes keep their form. `Node`, `LessonNode`, `SubjectNode`,
`GradeNode`, `YouTubeResourceNode` and `GradeJsonTree` are Dafny classes whose
methods update their fields. Python's subclasses of `Node` hold their `Node`
part in a `node` field, so `add_node` and `to_dict` are defined once. Each
node carries a ghost `place` (grade, subject and lesson index). The traversal
uses it to show that scraping one lesson, subject or grade changes no node
outside it.

The foreign calls are fields of `Env`, each a function of its argument:

- `rejects`: the constructor raises an extraction error;
- `expand`: `playlist_links`;
- `infoTitle`: `get_resource_info()["title"]`;
- `fetch`: `YouTubeResource.download`;
- `subtitles`: `get_resource_subtitles`;
- `hash`: SHA-1 of the id.

The `LOAD_VIDEO_LIST` flag is the parameter `reuse` / `loadVideoList`.

Two consequences of the code shape the tree:

- **One lesson per playlist item.** `auto_generate_lessons` makes every
  `(title, url)` pair of a resolved playlist its own `LessonNode`
  (sushichef.py:131-133), and `scrape` adds exactly one video to each lesson
  (sushichef.py:338-339). So a lesson renders as its video when a file was
  fetched, or else as an empty topic (`Chef.LessonRecordShape`), never as a
  topic of several videos.
- **The download flag is ignored.** `scrape` reads `DOWNLOAD_VIDEOS`
  (sushichef.py:338) and passes it down, but `YouTubeResourceNode.download`
  never looks at its `download` argument (sushichef.py:262-265), so the model
  has no download-disabled mode.

## Model

| member | source | states |
|---|---|---|
| Text.Strip | sushichef.py:186 | neither end of the result is whitespace, it is no longer than the input, and an already trimmed string comes back unchanged |
| Text.StripKeepsMiddle | sushichef.py:186 | `strip()` returns the slice of the input between a run of leading and a run of trailing whitespace, so nothing inside is removed |
| Text.Find | sushichef.py:198-200 | -1 exactly when the substring does not occur; otherwise the index of its first occurrence |
| Text.BeforeFirst | sushichef.py:205 | `"".join(s.split("?")[:1])` is the longest prefix free of the separator, and the separator follows it when it is shorter than the input |
| Text.Replace | sushichef.py:206 | `str.replace` returns the text itself when pattern and replacement are equal, and is no longer (no shorter) than the input when the replacement is shorter (longer); `ReplaceAbsent`, `ReplaceAfterPrefix` and `ReplaceRemovesAll` state what it replaces |
| Text.ReplaceAbsent | sushichef.py:206 | replacing a pattern that does not occur leaves the text unchanged |
| Text.ReplaceAfterPrefix | sushichef.py:206 | `replace` copies a prefix in which no occurrence of the pattern starts and carries on with the rest, so occurrences are replaced left to right |
| Text.ReplaceRemovesAll | sushichef.py:206 | when pattern and replacement share no character, no occurrence of the pattern survives `replace` |
| Text.Truncate | sushichef.py:305 | `s[:n]` is a prefix of at most `n` characters, the whole text when it is short enough and exactly `n` otherwise |
| Resource.CleanUrl | sushichef.py:183-186 | the cleaned url is trimmed and never longer than the input; a trimmed url not ending in "/" is returned unchanged |
| Resource.CleanUrlDropsSlash | sushichef.py:184-186 | a trimmed url followed by one "/" comes back without the "/" |
| Resource.CleanUrlNotIdempotent | sushichef.py:184-186 | the slash is removed before the whitespace, so `url + "/ "` keeps its slash on the first cleaning and loses it on the second |
| Resource.TransformEmbed | sushichef.py:204-206 | the result is trimmed and holds no "embed/" |
| Resource.TransformEmbedCutsQuery | sushichef.py:205 | everything from the first "?" on is dropped: `head + "?" + tail` transforms like `head` when `head` has no "?" |
| Resource.TransformEmbedRewrites | sushichef.py:205-206 | one "embed/" between parts free of "?" and "embed/" becomes "watch?v=", and the whole is stripped |
| Resource.TransformEmbedPlain | sushichef.py:204-206 | an input with no "?" and no "embed/" is only stripped |
| Resource.IsYoutube | sushichef.py:197-201 | true exactly when the url mentions "youtube" or "youtu.be" and, unless a channel is wanted, mentions neither "user" nor "/c/" |
| Resource.NameLinks | sushichef.py:243-246 | one `(title, url)` pair per expanded link, in link order, titled by the info of the cleaned url |
| Resource.Resolve | sushichef.py:233-249 | the stored list is returned without expansion exactly when an entry exists for the hash and reuse is on; otherwise the fresh list is returned and written under the hash, replacing any old entry, even when empty |
| Resource.ResolveThenReuse | sushichef.py:239-248 | resolving, then resolving again with reuse on, gives the same list and cache without a second expansion |
| Resource.ResolveKeepsOthers | sushichef.py:235-248 | with an injective hash, resolving one playlist leaves every other playlist's cache entry as it was |
| Resource.SubtitleEntries | sushichef.py:258-259 | one subtitle descriptor per language, in key order, each carrying the video id |
| Resource.SubtitleFiles | sushichef.py:251-260 | what `subtitles_dict` returns: none without info or without `subtitles`, otherwise `SubtitleEntries` of the video id and the languages, whose meaning that lemma states |
| Resource.VideoDict | sushichef.py:267-281 | `to_dict` on the node's state; `VideoDictShape` states what it returns |
| Resource.VideoDictShape | sushichef.py:267-281 | a video renders to `None` exactly when no file path is known; otherwise to a video record whose files are the video file followed by one subtitle descriptor per reported language, and none when the info or its `subtitles` is absent |
| Resource.YouTubeResourceNode.constructor | sushichef.py:165-181 | the id is the url run through `transform_embed` when embedded and through `clean_url` otherwise; no file path or title yet |
| Resource.YouTubeResourceNode.Download | sushichef.py:262-265 | the file path and the title are the ones the fetch reports |
| Resource.YouTubeResourceNode.SubtitlesDict | sushichef.py:251-260 | the loop builds exactly the descriptors `SubtitleFiles` describes: none without info or `subtitles`, else one per language in order |
| Resource.YouTubeResourceNode.ToDict | sushichef.py:267-281 | `None` exactly while `filepath` is `None`, otherwise the record `VideoDictShape` describes |
| Resource.YouTubeResourceNode.PlaylistNameLinks | sushichef.py:233-249 | returns the list and leaves the cache as `Resolve` describes, and logs an expansion exactly when it expanded |
| Resource.TitleLinks | sushichef.py:243-246 | the loop's list is `NameLinks` of the expanded links |
| Resource.ResolveTwice | sushichef.py:233-249 | resolving a playlist with reuse off and then on returns the same list twice and expands it exactly once |
| ChildTable.IndexOf | sushichef.py:70 | the position of the entry for a key is the first entry carrying it; none exactly when no entry does |
| ChildTable.Lookup | sushichef.py:70 | a key maps to nothing exactly when no entry carries it, and otherwise to the value of an entry carrying it |
| ChildTable.Put | sushichef.py:70 | `tree_nodes[k] = v`; `PutNewKey`, `PutExistingKey`, `PutLookup` and `PutDistinctKeys` state its meaning |
| ChildTable.PutNewKey | sushichef.py:70 | storing under a new key appends the entry after all existing ones |
| ChildTable.PutExistingKey | sushichef.py:70 | storing under a present key keeps its position and replaces only its value |
| ChildTable.PutLookup | sushichef.py:70 | after storing, the key maps to the new value and every other key to what it mapped to before |
| ChildTable.PutDistinctKeys | sushichef.py:70 | storing never makes a key appear twice |
| ChildTable.AddRenderedSpec | sushichef.py:67-70 | a `None` rendering leaves the table as it is; a record is found under its own `source_id` afterwards, appended when the id is new and replacing the old value in place when it is not, and every other id keeps its value |
| ChildTable.AddAll | sushichef.py:67-70 | `add_node` for several rendered records in turn; `AddAllDistinct`, `AddAllLastWins` and `AddAllDistinctKeys` state its meaning |
| ChildTable.AddAllDistinct | sushichef.py:67-70 | records with distinct ids, none already present, are appended in the order they were added |
| ChildTable.AddAllDistinctValues | sushichef.py:70-81 | then the rendered children are the old ones followed by the records, and the keys are their ids |
| ChildTable.AddAllLastWins | sushichef.py:70 | after adding a sequence of records, an id maps to the last record carrying it; an id none carries keeps its old value |
| ChildTable.AddAllDistinctKeys | sushichef.py:70 | a table built by adding records never stores a key twice |
| Nodes.Node.constructor | sushichef.py:60-65 | a node starts with its title, id and language, no description and an empty table |
| Nodes.Node.AddNode | sushichef.py:67-70 | `None` leaves the table unchanged; otherwise the child's id maps to its record and every other key is unchanged |
| Nodes.Node.ToDict | sushichef.py:72-82 | a topic carrying the node's attributes whose children are the stored records in table order, one per entry |
| Nodes.TopicDict | sushichef.py:72-82 | `Node.to_dict` on a node's state, stated by `Node.ToDict` |
| Nodes.LessonDict | sushichef.py:147-161 | `LessonNode.to_dict` on a lesson's state; `LessonOfOneChild`, `LessonOfNoChild` and `LessonNode.ToDict` state its cases |
| Nodes.LessonOfOneChild | sushichef.py:147-150 | a lesson holding exactly one record renders as that record itself, not as a topic around it |
| Nodes.LessonOfNoChild | sushichef.py:151-161 | a lesson whose only child rendered to nothing renders as an empty topic under its own id, never as `None` |
| Nodes.LessonNode.constructor | sushichef.py:138-140 | a lesson starts with its title, url and language and an empty table |
| Nodes.LessonNode.Download | sushichef.py:142-145 | the new video's id is the cleaned lesson url, in the lesson's language, with the fetched file path and title |
| Nodes.LessonNode.ToDict | sushichef.py:147-161 | with zero or several children, a topic with the lesson's id and its children in insertion order |
| Nodes.ToLessons | sushichef.py:131-133 | one lesson per `(title, url)` pair, in playlist order, in the subject's language |
| Nodes.Step | sushichef.py:125-133 | one url of `auto_generate_lessons`; `GenerateSkipsRejected`, `StepReuseExtends` and `SubjectNode.GenerateFromUrl` state its meaning |
| Nodes.Generate | sushichef.py:123-133 | `auto_generate_lessons` over a url list; `GenerateAppend`, `GenerateSkipsRejected`, `GenerateReuseExtends` and `GenerateReuseIdempotent` state its meaning |
| Nodes.GenerateAppend | sushichef.py:124-133 | generating from two url lists is generating from the first and then from the second, so lessons follow url order, then playlist order |
| Nodes.GenerateSkipsRejected | sushichef.py:125-129 | a url whose resource cannot be constructed contributes no lesson and touches no cache entry |
| Nodes.StepReuseExtends | sushichef.py:239-248 | with reuse on, one url rewrites no cache entry and leaves an entry under its own hash |
| Nodes.GenerateReuseExtends | sushichef.py:233-249 | with reuse on, no existing cache entry is rewritten and every accepted url leaves an entry |
| Nodes.GenerateReplay | sushichef.py:123-133 | a reusing run over any cache that holds the entries a reusing run left yields the same lessons, keeps that cache and expands nothing |
| Nodes.GenerateReuseIdempotent | sushichef.py:123-133 | a second reusing run over the cache the first left behind reproduces its lessons and expands nothing |
| Nodes.SubjectNode.constructor | sushichef.py:119-121 | a subject starts with its attributes, an empty table and no lessons |
| Nodes.SubjectNode.AutoGenerateLessons | sushichef.py:123-133 | appends, after the lessons already present, exactly the lessons `Generate` describes, each in a new node with an empty table, and leaves the cache as `Generate` describes |
| Nodes.SubjectNode.GenerateFromUrl | sushichef.py:125-133 | one url: a rejected url changes nothing; otherwise its resolved playlist's lessons are appended |
| Nodes.SubjectNode.AddLessons | sushichef.py:131-133 | the plans grow by exactly one lesson per pair, in order, keeping the earlier lessons |
| Nodes.SubjectNode.AddLesson | sushichef.py:132-133 | the new lesson goes last, made of the title, url and the subject's language |
| Nodes.GradeNode.constructor | sushichef.py:110-112 | a grade starts with its title and id, the default language "en", an empty table and no subjects |
| Nodes.GradeNode.AddSubject | sushichef.py:114-115 | the subject goes last and the other subjects are unchanged |
| Loader.KeptGrades | sushichef.py:92-103 | an entry is kept exactly when it has a "subjects" key: every kept entry has one and comes from the input, and every input entry with one is kept |
| Loader.KeptGradesAppend | sushichef.py:92-101 | keeping the entries of two lists is keeping those of the first, then those of the second, so file order is kept |
| Loader.SubjectStep | sushichef.py:96-100 | one subject entry of `load`; `LoadSubject` and `LoadSubjectsShape` state its meaning |
| Loader.LoadSubjects | sushichef.py:95-100 | the subject entries of one grade in order; `LoadSubjectsShape` and `LoadSubjectsInto` state its meaning |
| Loader.GradeStep | sushichef.py:93-103 | one grade entry of `load`; `GradeStepShape` states its meaning |
| Loader.LoadGrades | sushichef.py:92-103 | `load` over the parsed entries; `LoadGradesShape`, `LoadReuseIdempotent` and `GradeJsonTree.Load` state its meaning |
| Loader.SubjectStepReuseExtends | sushichef.py:96-99 | with reuse on, a subject entry rewrites no cache entry |
| Loader.LoadSubjectsReuseExtends | sushichef.py:95-100 | with reuse on, loading the subject entries of a grade rewrites no cache entry |
| Loader.GradeStepReuseExtends | sushichef.py:93-101 | with reuse on, a grade entry rewrites no cache entry |
| Loader.SubjectStepReplay | sushichef.py:96-99 | replaying a subject entry with reuse on over a cache holding its entries gives the same plans, keeps the cache and expands nothing |
| Loader.LoadSubjectsReplay | sushichef.py:95-100 | the same for all subject entries of a grade |
| Loader.GradeStepReplay | sushichef.py:93-101 | the same for one grade entry, with or without "subjects" |
| Loader.LoadGradesReplay | sushichef.py:92-103 | the same for every grade entry of the file |
| Loader.LoadReuseIdempotent | sushichef.py:89-103 | a second `load` with reuse on, over the cache the first left behind, builds the same grade plans, leaves the cache as it is and expands no playlist |
| Loader.GradeStepShape | sushichef.py:93-103 | an entry without "subjects" adds nothing; one with it adds one grade plan of its shape after the earlier ones |
| Loader.LoadGradesShape | sushichef.py:92-103 | one grade plan per kept entry, in file order, with the entry's title and id, language "en", and one subject plan per subject entry |
| Loader.LoadSubjectsShape | sushichef.py:95-100 | one subject plan per subject entry, in order, with the entry's title, id and language |
| Loader.LoadSubject | sushichef.py:96-99 | a new subject node made of the entry whose lessons are those `Generate` yields from its urls |
| Loader.LoadInto | sushichef.py:95-100 | the new subject goes last in the grade and the earlier subjects keep their plans |
| Loader.LoadSubjectsInto | sushichef.py:95-100 | the grade gets one subject per entry, in order, each planned as `LoadSubjects` describes, with every table empty |
| Loader.LoadGrade | sushichef.py:93-101 | builds the grade node and loads its subjects exactly when the entry has a "subjects" key |
| Loader.GradeJsonTree.constructor | sushichef.py:86-87 | no grades yet |
| Loader.GradeJsonTree.Load | sushichef.py:89-103 | the earlier grades are kept and one new grade is appended per kept entry, in order, each made of the plan `LoadGrades` describes, with new nodes and empty tables |
| Loader.GradeJsonTree.LoadEntry | sushichef.py:92-103 | one entry: the grade is appended exactly when the entry has a "subjects" key |
| Loader.GradeJsonTree.AppendGrade | sushichef.py:101 | the grade goes last |
| Chef.ChannelInfo | sushichef.py:301-311 | the channel record has no children and a description that is a prefix of the channel description of at most 400 characters |
| Chef.DescriptionKept | sushichef.py:305 | the description is under 400 characters, so the cut keeps all of it |
| Chef.LessonRecord | sushichef.py:338-340 | a scraped lesson, rendered; `LessonRecordShape` states what it is |
| Chef.SubjectRecord | sushichef.py:337-341 | a scraped subject, rendered; `SubjectChildrenDistinct` and `SubjectChildLastWins` state its children |
| Chef.GradeRecord | sushichef.py:336-342 | a scraped grade, rendered; `GradeRecordShape` and `GradeChildrenDistinct` state what it is |
| Chef.ChannelTree | sushichef.py:335-343 | the channel `scrape` returns; `ChannelKeepsGrades` and `ChannelReuseIdempotent` state what it holds |
| Chef.LessonRecordShape | sushichef.py:338-340 | a scraped lesson renders as its video (cleaned id, fetched title, lesson language) when a file was fetched, and as an empty topic under its own id otherwise |
| Chef.GradeRecordShape | sushichef.py:336-342 | a rendered grade is a topic with the grade's id, title and language and at most one child per subject |
| Chef.ChannelKeepsGrades | sushichef.py:335-342 | the channel has one child per grade entry with a "subjects" key, in file order: a topic with the entry's id and title, in "en", with at most one child per subject entry |
| Chef.ChannelReuseIdempotent | sushichef.py:233-249 | two runs with reuse on give the same channel tree; the second keeps the cache as the first left it and expands no playlist |
| Chef.AddAllLength | sushichef.py:67-70 | adding records one at a time adds at most one entry each and never removes one |
| Chef.SubjectChildrenDistinct | sushichef.py:337-341 | when the rendered lessons carry distinct ids, the subject's children are exactly those records, in order |
| Chef.SubjectChildLastWins | sushichef.py:337-341 | whatever the ids, the subject's child under an id is the last rendered lesson with that id |
| Chef.GradeChildrenDistinct | sushichef.py:336-342 | when the rendered subjects carry distinct ids, the grade's children are exactly those records, in order |
| Chef.ScrapeLesson | sushichef.py:338-340 | the lesson holds its downloaded video as `LessonTable` describes, and the subject stores the lesson's rendering under its id |
| Chef.ScrapeSubject | sushichef.py:337-340 | the subject holds the rendered lessons added in order, and no node outside the subject changes |
| Chef.ScrapeLessonAt | sushichef.py:338-340 | one pass adds the next rendered lesson and touches no other lesson |
| Chef.RenderSubject | sushichef.py:337-341 | the scraped subject renders to its `SubjectRecord` |
| Chef.RenderSubjectOf | sushichef.py:337-341 | scraping one subject of a grade leaves the grade's table and the later subjects untouched |
| Chef.ScrapeSubjectAt | sushichef.py:336-341 | one pass adds the next rendered subject to the grade, and the later subjects stay empty |
| Chef.ScrapeGrade | sushichef.py:336-341 | the grade holds the rendered subjects added in order, and no node outside the grade changes |
| Chef.RenderGrade | sushichef.py:336-342 | the scraped grade renders to its `GradeRecord` |
| Chef.RenderGradeOf | sushichef.py:335-342 | scraping one grade changes no other grade, subject or lesson object, and the later grades stay empty |
| Chef.ScrapeGradeAt | sushichef.py:342 | one pass appends the next rendered grade to the channel's children |
| Chef.ScrapeGrades | sushichef.py:335-342 | the channel's children grow by the rendered grades, in load order |
| Chef.Lessons | sushichef.py:298-315 | the channel record with no children, and grades loaded as `LoadGrades` describes, every node new and every table empty |
| Chef.Scrape | sushichef.py:317-343 | the returned channel is `ChannelTree` of the grade plans `load` builds, and the cache is as loading left it |
| Chef.ScrapeTwice | sushichef.py:317-343 | `scrape` run twice with `LOAD_VIDEO_LIST` on returns the same channel both times, and every expansion happens in the first run |

## Left out

- The youtube_dl and pressurecooker calls are functions in `Env`: `playlist_links` (sushichef.py:208-231), `get_resource_info`, `get_resource_subtitles` and `YouTubeResource.download`. Each is a function of its argument, so repeated calls agree.
- SHA-1 and the cache files on disk are modelled as `Env.hash` and a map in `VideoListStore`. File-system errors and `build_path` are left out.
- Reading and parsing `resources.json` is left out. `load` receives the parsed entries, and the "title", "source_id", "lang" and "lessons" keys it indexes are assumed present. A missing key raises `KeyError` in the source, and the model has no such path.
- An entry with a "lessons" key but no "subjects" key (sushichef.py:102-103) is dropped, like any other entry without "subjects".
- Only `auto_generate_lessons` models a resource constructor that raises, as `Env.rejects`, because it is the only place the source catches the error. `LessonNode.download` and the constructor inside `playlist_name_links` are modelled as succeeding: an exception there ends the run.
- `clean_url` raises `IndexError` on an empty url, and nothing catches it. References therefore have the non-empty type `Url`, and that failure path is not modelled.
- The `DOWNLOAD_VIDEOS` flag is left out. `scrape` reads it (sushichef.py:338) and passes it down, and `YouTubeResourceNode.download` ignores it (sushichef.py:262-265). Whether a file path exists is an input, through `Env.fetch`.
- The `base_path` argument is always the constant DATA_DIR folder (sushichef.py:332-333), passed on to `YouTubeResource.download` (sushichef.py:263). It is folded into `Env.fetch`.
- The `Env` calls never raise. In the source, an exception from `get_resource_info` (sushichef.py:245), `get_resource_subtitles` (sushichef.py:253) or `YouTubeResource.download` (sushichef.py:263), or a subtitle info without an "id" key (sushichef.py:255), ends the run; the model has no such path.
- `playlist_links` catches extraction errors and `KeyError` and returns the urls it collected before the error (sushichef.py:223-231). `Env.expand` is that result, whatever it is.
- The command-line options of `scrape` (sushichef.py:318-327) and the global flags are left out. `LOAD_VIDEO_LIST` is passed as `reuse`.
- Logging, `print`, the `requests` session and the `JsonTreeChef` plumbing (`__init__`, `pre_run`, `write_tree_to_json`, `main`) are left out.
- `GradeJsonTree.__iter__` is not modelled separately: the traversal reads `grades` directly.
- The fields `filename`, `type_name`, `section_title`, `file_format`, `is_valid` and `LessonNode.item` are left out, because no modelled operation reads them.
- Records are Dafny values, not dictionaries. `content_kinds` is the record's constructor, and `LICENSE` is an opaque value.
- The video node's own `tree_nodes` are never filled in the source, so the model does not give the video node a table.
- Chef.ScrapeSubject: its contract states the subject's table and the frame, but not each lesson's own table after the loop. That table is stated once per lesson by `Chef.ScrapeLesson`, and carrying it through the loop made the proof too expensive for the solver.
- Resource.YouTubeResourceNode.ToDict: the record is stated through `VideoDict`. Its meaning is proved in `Resource.VideoDictShape`.
