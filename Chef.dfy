/**
 * `UCSTChef`: the channel record built by `lessons`, and the traversal of
 * `scrape` that downloads one video per lesson and folds lessons into
 * subjects, subjects into grades and grades into the channel's children.
 *
 * The records the traversal produces are first described by functions of the
 * plans `load` builds (`LessonRecord`, `SubjectRecord`, `GradeRecord`,
 * `ChannelTree`); the methods are then proved to produce exactly those.
 */
module Chef {
  import opened Wrappers
  import opened Text
  import opened Records
  import opened ChildTable
  import opened Resource
  import opened Nodes
  import opened Loader

  const CHANNEL_NAME: string := "University College of Science and Technology's E-learning Unit (العربيّة)"
  const CHANNEL_SOURCE_ID: string := "ucst-elearning"
  const CHANNEL_DOMAIN: string := "https://www.youtube.com/user/CoursesTube/"
  const CHANNEL_LANGUAGE: string := "ar"
  const CHANNEL_DESCRIPTION: string := "تقدم قناة مركز التعليم الإلكتروني في الكلية الجامعية للعلوم والتكنولوجيا مجموعة من الدروس الفعالة والمفيدة لطلاب المرحلة الجامعية في عديد من التخصصات مثل العلوم الطبية والهندسة والبرمجيات وعلوم الحاسوب. كما أنها تحوي مجموعة من الدروس المقدمة لطلبة المرحلة الثانوية في البرمجة."
  const CHANNEL_THUMBNAIL: string := "https://yt3.ggpht.com/a-/AAuE7mAONlA6e6c5gpmCuxIUvfk3-IegnkU8xXb35w=s288-mo-c-c0xffffffff-rj-k-no"

  /** The upper limit on the description the channel accepts. */
  const DESCRIPTION_LIMIT: nat := 400

  /** The `channel_tree` dictionary. */
  datatype Channel = Channel(sourceDomain: string, sourceId: string, title: string, description: string,
                             thumbnail: string, author: string, language: string,
                             children: seq<Record>, license: License)

  /** The channel record `lessons` starts from: no children yet, and the description cut to its limit. */
  function ChannelInfo(): (c: Channel)
    ensures |c.description| <= DESCRIPTION_LIMIT && |c.description| <= |CHANNEL_DESCRIPTION|
    ensures c.description == CHANNEL_DESCRIPTION[..|c.description|]
    ensures c.children == []
  {
    Channel(CHANNEL_DOMAIN, CHANNEL_SOURCE_ID, CHANNEL_NAME, Truncate(CHANNEL_DESCRIPTION, DESCRIPTION_LIMIT),
            CHANNEL_THUMBNAIL, AUTHOR, CHANNEL_LANGUAGE, [], LICENSE)
  }

  /** The description is shorter than the limit, so the cut keeps all of it. */
  lemma DescriptionKept()
    ensures ChannelInfo().description == CHANNEL_DESCRIPTION
  {
    assert |CHANNEL_DESCRIPTION| < DESCRIPTION_LIMIT;
  }

  /** The id of the video a lesson downloads: its url, cleaned. */
  function VideoId(lp: LessonPlan): string
  {
    CleanUrl(lp.sourceId)
  }

  /** `lesson.download(...).to_dict()`: the lesson's video rendered, or nothing when no file was fetched. */
  function LessonVideo(lp: LessonPlan, env: Env): Option<Record>
  {
    var id := VideoId(lp);
    var fetched := env.fetch(id);
    VideoDict(id, Some(fetched.title), fetched.filename, lp.lang, env.subtitles(id))
  }

  /** A lesson's table after `lesson.add_node(video)`. */
  function LessonTable(lp: LessonPlan, env: Env): Table
  {
    AddRendered([], LessonVideo(lp, env))
  }

  /** A lesson after `lesson.add_node(video)`, rendered. */
  function LessonRecord(lp: LessonPlan, env: Env): Record
  {
    LessonDict(lp.sourceId, lp.title, lp.lang, LessonTable(lp, env))
  }

  /**
   * A lesson renders as the video it downloaded when a file was fetched, and
   * otherwise as an empty topic under the lesson's own id; never as a topic
   * around its video.
   */
  lemma LessonRecordShape(lp: LessonPlan, env: Env)
    ensures var f := env.fetch(VideoId(lp));
            && (f.filename.Some? ==> LessonRecord(lp, env).Video?
                                     && LessonRecord(lp, env).sourceId == VideoId(lp)
                                     && LessonRecord(lp, env).title == Some(f.title)
                                     && LessonRecord(lp, env).language == lp.lang)
            && (f.filename.None? ==> LessonRecord(lp, env) == Topic(lp.sourceId, lp.title, None, lp.lang, AUTHOR, LICENSE, []))
  {
    var video := LessonVideo(lp, env);
    if video.Some? {
      LessonOfOneChild(lp.sourceId, lp.title, lp.lang, video.value);
    } else {
      LessonOfNoChild(lp.sourceId, lp.title, lp.lang);
    }
  }

  /** The rendered lessons, in order. */
  function LessonRecords(ls: seq<LessonPlan>, env: Env): seq<Record>
  {
    seq(|ls|, i requires 0 <= i < |ls| => LessonRecord(ls[i], env))
  }

  /** A subject after `subject.add_node(lesson)` for each of its lessons, rendered. */
  function SubjectRecord(sp: SubjectPlan, env: Env): Record
  {
    TopicDict(sp.sourceId, sp.title, None, sp.lang, AddAll([], LessonRecords(sp.lessons, env)))
  }

  /** The rendered subjects, in order. */
  function SubjectRecords(ss: seq<SubjectPlan>, env: Env): seq<Record>
  {
    seq(|ss|, i requires 0 <= i < |ss| => SubjectRecord(ss[i], env))
  }

  /** A grade after `grade.add_node(subject)` for each of its subjects, rendered. */
  function GradeRecord(gp: GradePlan, env: Env): Record
  {
    TopicDict(gp.sourceId, gp.title, None, gp.lang, AddAll([], SubjectRecords(gp.subjects, env)))
  }

  /** The rendered grades, in order. */
  function GradeRecords(gs: seq<GradePlan>, env: Env): seq<Record>
  {
    seq(|gs|, i requires 0 <= i < |gs| => GradeRecord(gs[i], env))
  }

  /** What `scrape` returns for the grades `load` built. */
  function ChannelTree(grades: seq<GradePlan>, env: Env): Channel
  {
    ChannelInfo().(children := GradeRecords(grades, env))
  }

  /** A rendered grade is a topic with the grade's id, title and language, and at most one child per subject. */
  lemma GradeRecordShape(gp: GradePlan, env: Env)
    ensures var r := GradeRecord(gp, env);
            && r.Topic? && r.sourceId == gp.sourceId && r.title == gp.title && r.language == gp.lang
            && |r.children| <= |gp.subjects|
  {
    AddAllLength([], SubjectRecords(gp.subjects, env));
  }

  /**
   * The channel holds one child per grade entry with a "subjects" key, in
   * file order: a topic with the entry's id and title, in English, with at
   * most one child per subject entry.
   */
  lemma ChannelKeepsGrades(config: seq<GradeConfig>, files: map<string, seq<NameUrl>>, expanded: seq<string>,
                           reuse: bool, env: Env)
    ensures var c := ChannelTree(LoadGrades(config, Loaded([], files, expanded), reuse, env).plans, env);
            && |c.children| == |KeptGrades(config)|
            && forall i :: 0 <= i < |c.children| ==>
                 && c.children[i].Topic?
                 && c.children[i].sourceId == KeptGrades(config)[i].sourceId
                 && c.children[i].title == Some(KeptGrades(config)[i].title)
                 && c.children[i].language == "en"
                 && |c.children[i].children| <= |KeptGrades(config)[i].subjects.value|
  {
    var plans := LoadGrades(config, Loaded([], files, expanded), reuse, env).plans;
    LoadedGradesShape(config, files, expanded, reuse, env);
    GradeRecordsKept(config, plans, env);
    assert ChannelTree(plans, env).children == GradeRecords(plans, env);
  }

  /** `LoadGradesShape` from an empty list of grades. */
  lemma LoadedGradesShape(config: seq<GradeConfig>, files: map<string, seq<NameUrl>>, expanded: seq<string>,
                          reuse: bool, env: Env)
    ensures var plans := LoadGrades(config, Loaded([], files, expanded), reuse, env).plans;
            |plans| == |KeptGrades(config)| && forall i :: 0 <= i < |plans| ==> GradeShape(plans[i], KeptGrades(config)[i])
  {
    var plans := LoadGrades(config, Loaded([], files, expanded), reuse, env).plans;
    var kept := KeptGrades(config);
    LoadGradesShape(config, Loaded([], files, expanded), reuse, env);
    forall i | 0 <= i < |kept|
      ensures GradeShape(plans[i], kept[i])
    {
      assert plans[0 + i] == plans[i];
    }
  }

  /** `ChannelKeepsGrades` for the rendered grades themselves. */
  lemma GradeRecordsKept(config: seq<GradeConfig>, plans: seq<GradePlan>, env: Env)
    requires |plans| == |KeptGrades(config)| && forall i :: 0 <= i < |plans| ==> GradeShape(plans[i], KeptGrades(config)[i])
    ensures var rs := GradeRecords(plans, env);
            && |rs| == |KeptGrades(config)|
            && forall i :: 0 <= i < |rs| ==>
                 && rs[i].Topic?
                 && rs[i].sourceId == KeptGrades(config)[i].sourceId
                 && rs[i].title == Some(KeptGrades(config)[i].title)
                 && rs[i].language == "en"
                 && |rs[i].children| <= |KeptGrades(config)[i].subjects.value|
  {
    var kept := KeptGrades(config);
    var rs := GradeRecords(plans, env);
    forall i | 0 <= i < |rs|
      ensures && rs[i].Topic?
              && rs[i].sourceId == kept[i].sourceId
              && rs[i].title == Some(kept[i].title)
              && rs[i].language == "en"
              && |rs[i].children| <= |kept[i].subjects.value|
    {
      GradeRecordShape(plans[i], env);
    }
  }

  /** Adding records one by one adds at most one entry each. */
  lemma {:induction false} AddAllLength(t: Table, rs: seq<Record>)
    ensures |t| <= |AddAll(t, rs)| <= |t| + |rs|
    decreases |rs|
  {
    if rs != [] {
      var init := AddAll(t, rs[..|rs| - 1]);
      var last := rs[|rs| - 1];
      AddAllLength(t, rs[..|rs| - 1]);
      match IndexOf(init, last.sourceId)
      case None => PutNewKey(init, last.sourceId, last);
      case Some(p) => PutExistingKey(init, last.sourceId, last, p);
    }
  }

  /** When the rendered lessons carry distinct ids, the subject's children are exactly those records, in order. */
  lemma SubjectChildrenDistinct(sp: SubjectPlan, env: Env)
    requires DistinctIds(LessonRecords(sp.lessons, env))
    ensures SubjectRecord(sp, env).children == LessonRecords(sp.lessons, env)
  {
    AddAllDistinctValues([], LessonRecords(sp.lessons, env));
    assert Values([]) == [];
  }

  /** Whatever the ids, the subject's child under an id is the last rendered lesson with that id. */
  lemma SubjectChildLastWins(sp: SubjectPlan, env: Env, k: string)
    ensures Lookup(AddAll([], LessonRecords(sp.lessons, env)), k) == LastWithId(LessonRecords(sp.lessons, env), k)
  {
    AddAllLastWins([], LessonRecords(sp.lessons, env), k);
  }

  /** When the rendered subjects carry distinct ids, the grade's children are exactly those records, in order. */
  lemma GradeChildrenDistinct(gp: GradePlan, env: Env)
    requires DistinctIds(SubjectRecords(gp.subjects, env))
    ensures GradeRecord(gp, env).children == SubjectRecords(gp.subjects, env)
  {
    AddAllDistinctValues([], SubjectRecords(gp.subjects, env));
    assert Values([]) == [];
  }

  /**
   * The body of the innermost loop of `scrape`: download the lesson's video,
   * store it in the lesson, then store the rendered lesson in the subject.
   */
  method ScrapeLesson(lesson: LessonNode, subject: SubjectNode, env: Env)
    requires lesson.WellFormed() && lesson.node != subject.node && lesson.node.treeNodes == []
    modifies lesson.node, subject.node
    ensures lesson.node.treeNodes == LessonTable(lesson.Plan(), env)
    ensures var r := LessonRecord(lesson.Plan(), env);
            subject.node.treeNodes == Put(old(subject.node.treeNodes), r.sourceId, r)
  {
    var video := lesson.Download(env);
    lesson.node.AddNode(video.ToDict(env));
    subject.node.AddNode(Some(lesson.ToDict()));
  }

  /**
   * The record at index `k` renders the lesson plan at index `k`. The
   * traversal below carries these facts index by index, so that each pass
   * of a loop unfolds the rendering of its own lesson only.
   */
  ghost predicate LessonRendered(records: seq<Record>, plans: seq<LessonPlan>, k: int, env: Env)
  {
    0 <= k < |records| && k < |plans| && records[k] == LessonRecord(plans[k], env)
  }

  /** The record at index `j` renders the subject plan at index `j`. */
  ghost predicate SubjectRendered(records: seq<Record>, plans: seq<SubjectPlan>, j: int, env: Env)
  {
    0 <= j < |records| && j < |plans| && records[j] == SubjectRecord(plans[j], env)
  }

  /** The record at index `i` renders the grade plan at index `i`. */
  ghost predicate GradeRendered(records: seq<Record>, plans: seq<GradePlan>, i: int, env: Env)
  {
    0 <= i < |records| && i < |plans| && records[i] == GradeRecord(plans[i], env)
  }

  /** `LessonRecords` renders every lesson plan at its own index. */
  lemma LessonRecordsRendered(plans: seq<LessonPlan>, env: Env)
    ensures forall k :: 0 <= k < |plans| ==> LessonRendered(LessonRecords(plans, env), plans, k, env)
  {
  }

  /** `SubjectRecords` renders every subject plan at its own index. */
  lemma SubjectRecordsRendered(plans: seq<SubjectPlan>, env: Env)
    ensures forall j :: 0 <= j < |plans| ==> SubjectRendered(SubjectRecords(plans, env), plans, j, env)
  {
  }

  /** `GradeRecords` renders every grade plan at its own index. */
  lemma GradeRecordsRendered(plans: seq<GradePlan>, env: Env)
    ensures forall i :: 0 <= i < |plans| ==> GradeRendered(GradeRecords(plans, env), plans, i, env)
  {
  }

  /**
   * The loop over one subject's lessons: the subject holds the rendered
   * lessons, added in order, and no node outside the subject changes.
   */
  method ScrapeSubject(subject: SubjectNode, ghost records: seq<Record>, env: Env)
    requires subject.Valid() && |records| == |subject.lessons|
    requires forall k :: 0 <= k < |records| ==> LessonRendered(records, LessonPlans(subject.lessons), k, env)
    requires forall k :: 0 <= k < |subject.lessons| ==> subject.lessons[k].node.treeNodes == []
    modifies subject.node, set k | 0 <= k < |subject.lessons| :: subject.lessons[k].node
    ensures subject.node.treeNodes == AddAll(old(subject.node.treeNodes), records)
    ensures forall n: Node :: old(allocated(n)) && !Within(n.place, subject.node.place) ==> n.treeNodes == old(n.treeNodes)
  {
    var lessons := subject.lessons;
    for k := 0 to |lessons|
      invariant subject.node.treeNodes == AddAll(old(subject.node.treeNodes), records[..k])
      invariant forall m :: k <= m < |lessons| ==> lessons[m].node.treeNodes == []
      invariant forall n: Node :: old(allocated(n)) && !Within(n.place, subject.node.place) ==> n.treeNodes == old(n.treeNodes)
    {
      ScrapeLessonAt(subject, k, old(subject.node.treeNodes), records, env);
    }
    assert records[..|lessons|] == records;
  }

  /** One pass of the loop of `ScrapeSubject`: the lesson at index `k` is scraped and its record added. */
  method ScrapeLessonAt(subject: SubjectNode, k: nat, ghost t0: Table, ghost records: seq<Record>, env: Env)
    requires subject.Valid() && k < |subject.lessons| == |records|
    requires forall i :: 0 <= i < |records| ==> LessonRendered(records, LessonPlans(subject.lessons), i, env)
    requires subject.node.treeNodes == AddAll(t0, records[..k])
    requires subject.lessons[k].node.treeNodes == []
    modifies subject.node, subject.lessons[k].node
    ensures subject.node.treeNodes == AddAll(t0, records[..k + 1])
    ensures forall m :: 0 <= m < |subject.lessons| && m != k ==>
              subject.lessons[m].node.treeNodes == old(subject.lessons[m].node.treeNodes)
    ensures Within(subject.lessons[k].node.place, subject.node.place)
  {
    assert LessonRendered(records, LessonPlans(subject.lessons), k, env);
    subject.DistinctLesson(k);
    ScrapeLesson(subject.lessons[k], subject, env);
    AddAllPrefix(t0, records, k);
  }

  /**
   * `subject.to_dict()` after its lessons are scraped: the record at index
   * `j` of the grade's rendered subjects; no node outside the subject changes.
   */
  method RenderSubject(subject: SubjectNode, ghost plans: seq<SubjectPlan>, ghost records: seq<Record>, j: nat, env: Env)
    returns (r: Record)
    requires subject.Valid() && subject.node.treeNodes == []
    requires j < |plans| == |records| && subject.Plan() == plans[j]
    requires forall i :: 0 <= i < |records| ==> SubjectRendered(records, plans, i, env)
    requires forall k :: 0 <= k < |subject.lessons| ==> subject.lessons[k].node.treeNodes == []
    modifies subject.node, set k | 0 <= k < |subject.lessons| :: subject.lessons[k].node
    ensures r == records[j]
    ensures forall n: Node :: old(allocated(n)) && !Within(n.place, subject.node.place) ==> n.treeNodes == old(n.treeNodes)
  {
    ghost var lessonRecords := LessonRecords(LessonPlans(subject.lessons), env);
    LessonRecordsRendered(LessonPlans(subject.lessons), env);
    ScrapeSubject(subject, lessonRecords, env);
    r := subject.node.ToDict();
    assert SubjectRendered(records, plans, j, env);
  }

  /**
   * The middle loop of `scrape` for one grade: the grade holds its rendered
   * subjects, added in order, and no node outside the grade changes.
   */
  method ScrapeGrade(grade: GradeNode, ghost p: GradePlan, ghost records: seq<Record>, env: Env)
    requires grade.Valid() && Matches(grade, p) && |records| == |p.subjects|
    requires forall j :: 0 <= j < |records| ==> SubjectRendered(records, p.subjects, j, env)
    requires grade.node.treeNodes == []
    requires forall j :: 0 <= j < |grade.subjects| ==> grade.subjects[j].node.treeNodes == []
    requires forall j, k :: 0 <= j < |grade.subjects| && 0 <= k < |grade.subjects[j].lessons| ==>
               grade.subjects[j].lessons[k].node.treeNodes == []
    modifies grade.node, set s | s in grade.subjects :: s.node,
             set s, l | s in grade.subjects && l in s.lessons :: l.node
    ensures grade.node.treeNodes == AddAll([], records)
    ensures forall n: Node :: old(allocated(n)) && !Within(n.place, grade.node.place) ==> n.treeNodes == old(n.treeNodes)
  {
    for j := 0 to |grade.subjects|
      invariant grade.node.treeNodes == AddAll([], records[..j])
      invariant forall m :: j <= m < |grade.subjects| ==> grade.subjects[m].node.treeNodes == []
      invariant forall m, k :: j <= m < |grade.subjects| && 0 <= k < |grade.subjects[m].lessons| ==>
                  grade.subjects[m].lessons[k].node.treeNodes == []
      invariant forall n: Node :: old(allocated(n)) && !Within(n.place, grade.node.place) ==> n.treeNodes == old(n.treeNodes)
    {
      ScrapeSubjectAt(grade, j, p, records, env);
    }
    assert records[..|grade.subjects|] == records;
  }

  /**
   * One pass of the loop of `ScrapeGrade`: the subject at index `j` is
   * scraped, rendered and stored in the grade; the subjects after it are
   * untouched, and so is every node outside the grade.
   */
  method ScrapeSubjectAt(grade: GradeNode, j: nat, ghost p: GradePlan, ghost records: seq<Record>, env: Env)
    requires grade.Valid() && Matches(grade, p) && j < |grade.subjects| && |records| == |p.subjects|
    requires forall i :: 0 <= i < |records| ==> SubjectRendered(records, p.subjects, i, env)
    requires grade.node.treeNodes == AddAll([], records[..j])
    requires forall m :: j <= m < |grade.subjects| ==> grade.subjects[m].node.treeNodes == []
    requires forall m, k :: j <= m < |grade.subjects| && 0 <= k < |grade.subjects[m].lessons| ==>
               grade.subjects[m].lessons[k].node.treeNodes == []
    modifies grade.node, set s | s in grade.subjects :: s.node,
             set s, l | s in grade.subjects && l in s.lessons :: l.node
    ensures grade.node.treeNodes == AddAll([], records[..j + 1])
    ensures forall m :: j + 1 <= m < |grade.subjects| ==> grade.subjects[m].node.treeNodes == []
    ensures forall m, k :: j + 1 <= m < |grade.subjects| && 0 <= k < |grade.subjects[m].lessons| ==>
              grade.subjects[m].lessons[k].node.treeNodes == []
    ensures forall n: Node :: old(allocated(n)) && !Within(n.place, grade.node.place) ==> n.treeNodes == old(n.treeNodes)
  {
    var r := RenderSubjectOf(grade, j, p, records, env);
    grade.node.AddNode(Some(r));
    AddAllPrefix([], records, j);
  }

  /**
   * `RenderSubject` for the subject at index `j` of a grade: the grade's own
   * table and the subjects after `j` are untouched.
   */
  method RenderSubjectOf(grade: GradeNode, j: nat, ghost p: GradePlan, ghost records: seq<Record>, env: Env)
    returns (r: Record)
    requires grade.Valid() && Matches(grade, p) && j < |grade.subjects| && |records| == |p.subjects|
    requires forall i :: 0 <= i < |records| ==> SubjectRendered(records, p.subjects, i, env)
    requires forall m :: j <= m < |grade.subjects| ==> grade.subjects[m].node.treeNodes == []
    requires forall m, k :: j <= m < |grade.subjects| && 0 <= k < |grade.subjects[m].lessons| ==>
               grade.subjects[m].lessons[k].node.treeNodes == []
    modifies set s | s in grade.subjects :: s.node, set s, l | s in grade.subjects && l in s.lessons :: l.node
    ensures r == records[j] && grade.node.treeNodes == old(grade.node.treeNodes)
    ensures forall m :: j + 1 <= m < |grade.subjects| ==> grade.subjects[m].node.treeNodes == []
    ensures forall m, k :: j + 1 <= m < |grade.subjects| && 0 <= k < |grade.subjects[m].lessons| ==>
              grade.subjects[m].lessons[k].node.treeNodes == []
    ensures forall n: Node :: old(allocated(n)) && !Within(n.place, grade.node.place) ==> n.treeNodes == old(n.treeNodes)
  {
    grade.OutsideSubject(j);
    r := RenderSubject(grade.subjects[j], p.subjects, records, j, env);
  }

  /**
   * `grade.to_dict()` after its subjects are scraped: the record at index
   * `i` of the rendered grades; no node outside the grade changes.
   */
  method RenderGrade(grade: GradeNode, ghost plans: seq<GradePlan>, ghost records: seq<Record>, i: nat, env: Env)
    returns (r: Record)
    requires grade.Valid() && i < |plans| == |records| && Matches(grade, plans[i])
    requires forall g :: 0 <= g < |records| ==> GradeRendered(records, plans, g, env)
    requires grade.node.treeNodes == []
    requires forall j :: 0 <= j < |grade.subjects| ==> grade.subjects[j].node.treeNodes == []
    requires forall j, k :: 0 <= j < |grade.subjects| && 0 <= k < |grade.subjects[j].lessons| ==>
               grade.subjects[j].lessons[k].node.treeNodes == []
    modifies grade.node, set s | s in grade.subjects :: s.node,
             set s, l | s in grade.subjects && l in s.lessons :: l.node
    ensures r == records[i]
    ensures forall n: Node :: old(allocated(n)) && !Within(n.place, grade.node.place) ==> n.treeNodes == old(n.treeNodes)
  {
    ghost var p := plans[i];
    ghost var subjectRecords := SubjectRecords(p.subjects, env);
    SubjectRecordsRendered(p.subjects, env);
    ScrapeGrade(grade, p, subjectRecords, env);
    r := grade.node.ToDict();
    assert GradeRendered(records, plans, i, env);
  }

  /**
   * `lessons`: the channel record with no children yet, and the grades
   * `load` builds from the parsed resource file, every table still empty and
   * every node new.
   */
  method Lessons(config: seq<GradeConfig>, store: VideoListStore, reuse: bool, env: Env)
    returns (channel: Channel, tree: GradeJsonTree, ghost nodes: set<Node>)
    modifies store
    ensures channel == ChannelInfo() && fresh(tree)
    ensures forall g :: 0 <= g < |tree.grades| ==> tree.grades[g].Valid() && tree.grades[g].node.place == GradeAt(g)
    ensures var r := LoadGrades(config, Loaded([], old(store.files), old(store.expansions)), reuse, env);
            && |tree.grades| == |r.plans|
            && (forall g :: 0 <= g < |r.plans| ==> Matches(tree.grades[g], r.plans[g]))
            && store.files == r.files && store.expansions == r.expanded
    ensures Covers(tree.grades, nodes) && forall n | n in nodes :: fresh(n)
    ensures forall g :: 0 <= g < |tree.grades| ==> tree.grades[g].node.treeNodes == []
    ensures forall g, j :: 0 <= g < |tree.grades| && 0 <= j < |tree.grades[g].subjects| ==>
              tree.grades[g].subjects[j].node.treeNodes == []
    ensures forall g, j, k :: 0 <= g < |tree.grades| && 0 <= j < |tree.grades[g].subjects|
                              && 0 <= k < |tree.grades[g].subjects[j].lessons| ==>
              tree.grades[g].subjects[j].lessons[k].node.treeNodes == []
  {
    channel := ChannelInfo();
    tree := new GradeJsonTree();
    tree.Load(config, store, reuse, env);
    nodes := TreeNodes(tree.grades);
    TreeNodesFresh(tree.grades);
  }

  /** The nodes of every grade, subject and lesson of `grades`. */
  ghost function TreeNodes(grades: seq<GradeNode>): (nodes: set<Node>)
    reads grades, set g, s | g in grades && s in g.subjects :: s
    ensures Covers(grades, nodes)
  {
    (set g | g in grades :: g.node)
    + (set g, s | g in grades && s in g.subjects :: s.node)
    + (set g, s, l | g in grades && s in g.subjects && l in s.lessons :: l.node)
  }

  /** Grades whose nodes are all new have a node set that is all new. */
  twostate lemma TreeNodesFresh(new grades: seq<GradeNode>)
    requires forall g :: 0 <= g < |grades| ==> fresh(grades[g].node) && FreshNodes(grades[g])
    ensures forall n | n in TreeNodes(grades) :: fresh(n)
  {
  }

  /**
   * `scrape`: every lesson of every subject of every grade downloads its
   * video, and the channel's children are the rendered grades in load order,
   * so the channel is `ChannelTree` of the plans `load` builds.
   */
  method Scrape(config: seq<GradeConfig>, store: VideoListStore, reuse: bool, env: Env) returns (channel: Channel)
    modifies store
    ensures var r := LoadGrades(config, Loaded([], old(store.files), old(store.expansions)), reuse, env);
            && channel == ChannelTree(r.plans, env)
            && store.files == r.files && store.expansions == r.expanded
  {
    var info, tree, nodes := Lessons(config, store, reuse, env);
    ghost var plans := LoadGrades(config, Loaded([], old(store.files), old(store.expansions)), reuse, env).plans;
    ghost var records := GradeRecords(plans, env);
    GradeRecordsRendered(plans, env);
    ghost var files, expanded := store.files, store.expansions;
    channel := ScrapeGrades(tree.grades, nodes, plans, records, info, env);
    assert store.files == files && store.expansions == expanded;
    ChannelOfRecords(info, plans, records, channel, env);
  }

  /**
   * Two runs with reuse on give the same channel: the second run, over the
   * cache the first left behind, builds the same tree, leaves the cache as
   * it is and expands no playlist.
   */
  lemma ChannelReuseIdempotent(config: seq<GradeConfig>, files: map<string, seq<NameUrl>>,
                               e: seq<string>, e': seq<string>, env: Env)
    ensures var first := LoadGrades(config, Loaded([], files, e), true, env);
            var second := LoadGrades(config, Loaded([], first.files, e'), true, env);
            && ChannelTree(second.plans, env) == ChannelTree(first.plans, env)
            && second.files == first.files && second.expanded == e'
  {
    LoadReuseIdempotent(config, files, e, e', env);
  }

  /**
   * `scrape` run twice with `LOAD_VIDEO_LIST` on: the same channel both
   * times, and every playlist expansion happens during the first run.
   */
  method ScrapeTwice(config: seq<GradeConfig>, store: VideoListStore, env: Env) returns (first: Channel, second: Channel)
    modifies store
    ensures second == first
    ensures var r := LoadGrades(config, Loaded([], old(store.files), old(store.expansions)), true, env);
            first == ChannelTree(r.plans, env) && store.files == r.files && store.expansions == r.expanded
  {
    first := Scrape(config, store, true, env);
    second := Scrape(config, store, true, env);
    ChannelReuseIdempotent(config, old(store.files), old(store.expansions),
                           LoadGrades(config, Loaded([], old(store.files), old(store.expansions)), true, env).expanded, env);
  }

  /** The channel record with the rendered grades appended is `ChannelTree` of the grades. */
  lemma ChannelOfRecords(info: Channel, plans: seq<GradePlan>, records: seq<Record>, channel: Channel, env: Env)
    requires info == ChannelInfo() && records == GradeRecords(plans, env)
    requires channel == info.(children := info.children + records)
    ensures channel == ChannelTree(plans, env)
  {
    assert info.children + records == records;
  }

  /** Every node of `grades` is in `nodes`. */
  ghost predicate Covers(grades: seq<GradeNode>, nodes: set<Node>)
    reads grades, set g, s | g in grades && s in g.subjects :: s
  {
    && (forall g | g in grades :: g.node in nodes)
    && (forall g, s | g in grades && s in g.subjects :: s.node in nodes)
    && (forall g, s, l | g in grades && s in g.subjects && l in s.lessons :: l.node in nodes)
  }

  /**
   * The outer loop of `scrape`: every grade is scraped in order and its
   * record appended to the channel's children.
   */
  method ScrapeGrades(grades: seq<GradeNode>, ghost nodes: set<Node>, ghost plans: seq<GradePlan>,
                      ghost records: seq<Record>, info: Channel, env: Env)
    returns (channel: Channel)
    requires |grades| == |plans| == |records| && Covers(grades, nodes)
    requires forall i :: 0 <= i < |records| ==> GradeRendered(records, plans, i, env)
    requires forall g :: 0 <= g < |grades| ==> grades[g].Valid() && grades[g].node.place == GradeAt(g)
    requires forall g :: 0 <= g < |grades| ==> Matches(grades[g], plans[g])
    requires forall g :: 0 <= g < |grades| ==> grades[g].node.treeNodes == []
    requires forall g, j :: 0 <= g < |grades| && 0 <= j < |grades[g].subjects| ==>
               grades[g].subjects[j].node.treeNodes == []
    requires forall g, j, k :: 0 <= g < |grades| && 0 <= j < |grades[g].subjects|
                               && 0 <= k < |grades[g].subjects[j].lessons| ==>
               grades[g].subjects[j].lessons[k].node.treeNodes == []
    modifies nodes
    ensures channel == info.(children := info.children + records)
  {
    channel := info;
    for i := 0 to |grades|
      invariant channel == info.(children := info.children + records[..i])
      invariant Covers(grades, nodes)
      invariant forall g :: 0 <= g < |grades| ==> grades[g].Valid() && grades[g].node.place == GradeAt(g)
      invariant forall g :: 0 <= g < |grades| ==> Matches(grades[g], plans[g])
      invariant forall g :: i <= g < |grades| ==> grades[g].node.treeNodes == []
      invariant forall g, j :: i <= g < |grades| && 0 <= j < |grades[g].subjects| ==>
                  grades[g].subjects[j].node.treeNodes == []
      invariant forall g, j, k :: i <= g < |grades| && 0 <= j < |grades[g].subjects|
                                  && 0 <= k < |grades[g].subjects[j].lessons| ==>
                  grades[g].subjects[j].lessons[k].node.treeNodes == []
    {
      channel := ScrapeGradeAt(grades, i, nodes, plans, records, info, channel, env);
    }
    assert records[..|grades|] == records;
  }

  /** One pass of the loop of `scrape`: the grade at index `i` is scraped and its record appended to the channel's children. */
  method ScrapeGradeAt(grades: seq<GradeNode>, i: nat, ghost nodes: set<Node>, ghost plans: seq<GradePlan>,
                       ghost records: seq<Record>, ghost info: Channel, channel: Channel, env: Env)
    returns (next: Channel)
    requires i < |grades| == |plans| == |records| && Covers(grades, nodes)
    requires forall g :: 0 <= g < |records| ==> GradeRendered(records, plans, g, env)
    requires channel == info.(children := info.children + records[..i])
    requires forall g :: 0 <= g < |grades| ==> grades[g].Valid() && grades[g].node.place == GradeAt(g)
    requires forall g :: 0 <= g < |grades| ==> Matches(grades[g], plans[g])
    requires forall g :: i <= g < |grades| ==> grades[g].node.treeNodes == []
    requires forall g, j :: i <= g < |grades| && 0 <= j < |grades[g].subjects| ==>
               grades[g].subjects[j].node.treeNodes == []
    requires forall g, j, k :: i <= g < |grades| && 0 <= j < |grades[g].subjects|
                               && 0 <= k < |grades[g].subjects[j].lessons| ==>
               grades[g].subjects[j].lessons[k].node.treeNodes == []
    modifies nodes
    ensures next == info.(children := info.children + records[..i + 1])
    ensures Covers(grades, nodes)
    ensures unchanged(grades) && forall g :: 0 <= g < |grades| ==> unchanged(grades[g].subjects)
    ensures forall g :: i + 1 <= g < |grades| ==> grades[g].node.treeNodes == []
    ensures forall g, j :: i + 1 <= g < |grades| && 0 <= j < |grades[g].subjects| ==>
              grades[g].subjects[j].node.treeNodes == []
    ensures forall g, j, k :: i + 1 <= g < |grades| && 0 <= j < |grades[g].subjects|
                              && 0 <= k < |grades[g].subjects[j].lessons| ==>
              grades[g].subjects[j].lessons[k].node.treeNodes == []
  {
    var r := RenderGradeOf(grades, i, nodes, plans, records, env);
    next := channel.(children := channel.children + [r]);
    assert records[..i + 1] == records[..i] + [records[i]];
  }

  /**
   * `RenderGrade` for the grade at index `i`: no other grade, subject or
   * lesson object changes, and the grades after `i` are still empty.
   */
  method RenderGradeOf(grades: seq<GradeNode>, i: nat, ghost nodes: set<Node>, ghost plans: seq<GradePlan>,
                       ghost records: seq<Record>, env: Env)
    returns (r: Record)
    requires i < |grades| == |plans| == |records| && Covers(grades, nodes)
    requires forall g :: 0 <= g < |records| ==> GradeRendered(records, plans, g, env)
    requires forall g :: 0 <= g < |grades| ==> grades[g].Valid() && grades[g].node.place == GradeAt(g)
    requires forall g :: 0 <= g < |grades| ==> Matches(grades[g], plans[g])
    requires forall g :: i <= g < |grades| ==> grades[g].node.treeNodes == []
    requires forall g, j :: i <= g < |grades| && 0 <= j < |grades[g].subjects| ==>
               grades[g].subjects[j].node.treeNodes == []
    requires forall g, j, k :: i <= g < |grades| && 0 <= j < |grades[g].subjects|
                               && 0 <= k < |grades[g].subjects[j].lessons| ==>
               grades[g].subjects[j].lessons[k].node.treeNodes == []
    modifies nodes
    ensures r == records[i]
    ensures Covers(grades, nodes)
    ensures unchanged(grades) && forall g :: 0 <= g < |grades| ==> unchanged(grades[g].subjects)
    ensures forall g :: i + 1 <= g < |grades| ==> grades[g].node.treeNodes == []
    ensures forall g, j :: i + 1 <= g < |grades| && 0 <= j < |grades[g].subjects| ==>
              grades[g].subjects[j].node.treeNodes == []
    ensures forall g, j, k :: i + 1 <= g < |grades| && 0 <= j < |grades[g].subjects|
                              && 0 <= k < |grades[g].subjects[j].lessons| ==>
              grades[g].subjects[j].lessons[k].node.treeNodes == []
  {
    OutsideGrade(grades, i);
    r := RenderGrade(grades[i], plans, records, i, env);
  }

  /** Every node of a grade other than the one at index `i` lies outside that grade's place. */
  lemma OutsideGrade(grades: seq<GradeNode>, i: nat)
    requires i < |grades|
    requires forall g :: 0 <= g < |grades| ==> grades[g].Valid() && grades[g].node.place == GradeAt(g)
    ensures forall g :: 0 <= g < |grades| && g != i ==> !Within(grades[g].node.place, GradeAt(i))
    ensures forall g, j :: 0 <= g < |grades| && g != i && 0 <= j < |grades[g].subjects| ==>
              !Within(grades[g].subjects[j].node.place, GradeAt(i))
    ensures forall g, j, k :: 0 <= g < |grades| && g != i && 0 <= j < |grades[g].subjects|
                              && 0 <= k < |grades[g].subjects[j].lessons| ==>
              !Within(grades[g].subjects[j].lessons[k].node.place, GradeAt(i))
  {
    forall g, j, k | 0 <= g < |grades| && g != i && 0 <= j < |grades[g].subjects|
                     && 0 <= k < |grades[g].subjects[j].lessons|
      ensures !Within(grades[g].subjects[j].lessons[k].node.place, GradeAt(i))
    {
      assert grades[g].subjects[j].Valid();
    }
  }
}
