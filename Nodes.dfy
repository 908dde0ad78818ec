/**
 * The topic-tree nodes: `Node` with its ordered child table, and the lesson,
 * subject and grade nodes built on it. Python's subclasses of `Node` hold
 * their `Node` part in a `node` field here, so adding a child and rendering
 * a topic are defined once.
 */
module Nodes {
  import opened Wrappers
  import opened Records
  import opened ChildTable
  import opened Resource

  /** `Node.to_dict` on a node's state: a topic whose children are the stored records in table order. */
  function TopicDict(sourceId: string, title: Option<string>, description: Option<string>,
                     lang: string, t: Table): Record
  {
    Topic(sourceId, title, description, lang, AUTHOR, LICENSE, Values(t))
  }

  /** `LessonNode.to_dict` on a lesson's state: its only child itself, otherwise a topic. */
  function LessonDict(sourceId: string, title: Option<string>, lang: string, t: Table): Record
  {
    if |t| == 1 then t[0].value else TopicDict(sourceId, title, None, lang, t)
  }

  /** A lesson holding exactly one rendered video renders as that video, not as a topic around it. */
  lemma LessonOfOneChild(sourceId: string, title: Option<string>, lang: string, child: Record)
    ensures LessonDict(sourceId, title, lang, AddRendered([], Some(child))) == child
  {
    PutNewKey([], child.sourceId, child);
  }

  /** A lesson whose video rendered to nothing is an empty topic under the lesson's own id. */
  lemma LessonOfNoChild(sourceId: string, title: Option<string>, lang: string)
    ensures LessonDict(sourceId, title, lang, AddRendered([], None))
         == Topic(sourceId, title, None, lang, AUTHOR, LICENSE, [])
  {
  }

  /** Grade `g`, its subject `s`, that subject's lesson `l`, counted from 0. */
  datatype Place = GradeAt(g: nat) | SubjectAt(g: nat, s: nat) | LessonAt(g: nat, s: nat, l: nat)

  /** `p` is `q` itself or lies under it: a grade holds its subjects and their lessons, a subject its lessons. */
  predicate Within(p: Place, q: Place)
  {
    match q
    case GradeAt(g) => p.g == g
    case SubjectAt(g, s) => p == q || (p.LessonAt? && p.g == g && p.s == s)
    case LessonAt(_, _, _) => p == q
  }

  class Node {
    const title: Option<string>
    const sourceId: string
    const lang: string
    /** Never set by the source after construction. */
    const description: Option<string> := None
    /** `tree_nodes`: rendered children keyed by their `source_id`, in first-insertion order. */
    var treeNodes: Table
    /** Where the node sits in the loaded tree; nodes at different places are different objects. */
    ghost const place: Place

    constructor(title: Option<string>, sourceId: string, lang: string, ghost place: Place)
      ensures this.title == title && this.sourceId == sourceId && this.lang == lang
      ensures description == None && treeNodes == [] && this.place == place
    {
      this.title := title;
      this.sourceId := sourceId;
      this.lang := lang;
      treeNodes := [];
      this.place := place;
    }

    /**
     * `add_node(obj)` with `obj.to_dict()` already evaluated: a rendered
     * child is stored under its id (replacing an older child with that id in
     * place); an unrendered one is dropped.
     */
    method AddNode(child: Option<Record>)
      modifies this
      ensures treeNodes == AddRendered(old(treeNodes), child)
      ensures child.None? ==> treeNodes == old(treeNodes)
      ensures child.Some? ==> Lookup(treeNodes, child.value.sourceId) == child
      ensures forall k :: (child.None? || k != child.value.sourceId) ==> Lookup(treeNodes, k) == Lookup(old(treeNodes), k)
    {
      AddRenderedSpec(treeNodes, child);
      if child.Some? {
        var v := child.value;
        treeNodes := Put(treeNodes, v.sourceId, v);
      }
    }

    /** `to_dict`: a topic carrying this node's attributes and its children in table order. */
    function ToDict(): (r: Record)
      reads this
      ensures r == TopicDict(sourceId, title, description, lang, treeNodes)
      ensures r.Topic? && |r.children| == |treeNodes|
    {
      TopicDict(sourceId, title, description, lang, treeNodes)
    }
  }

  /** What a lesson node is made of: its title, its page url and its language. */
  datatype LessonPlan = LessonPlan(title: Option<string>, sourceId: Url, lang: string)

  class LessonNode {
    const node: Node

    /** `LessonNode(title=title, source_id=url, lang=lang)`. */
    constructor(title: string, sourceId: Url, lang: string, ghost place: Place)
      ensures fresh(node)
      ensures node.title == Some(title) && node.sourceId == sourceId && node.lang == lang
      ensures node.description == None && node.treeNodes == [] && node.place == place
    {
      node := new Node(Some(title), sourceId, lang, place);
    }

    /** A lesson's id is a url, so it can be cleaned. */
    predicate WellFormed()
    {
      node.sourceId != []
    }

    function Plan(): LessonPlan
      requires WellFormed()
    {
      LessonPlan(node.title, node.sourceId, node.lang)
    }

    /** `download`: a fresh resource for the cleaned lesson url in the lesson's language, fetched. */
    method Download(env: Env) returns (video: YouTubeResourceNode)
      requires WellFormed()
      ensures fresh(video)
      ensures video.sourceId == CleanUrl(node.sourceId) && video.lang == node.lang
      ensures video.filepath == env.fetch(video.sourceId).filename
      ensures video.name == Some(env.fetch(video.sourceId).title)
    {
      video := new YouTubeResourceNode(node.sourceId, node.lang, false);
      video.Download(env);
    }

    /** `to_dict`: the single stored child itself, otherwise a topic over the children. */
    function ToDict(): (r: Record)
      reads node
      ensures r == LessonDict(node.sourceId, node.title, node.lang, node.treeNodes)
      ensures |node.treeNodes| != 1 ==> r == Topic(node.sourceId, node.title, None, node.lang, AUTHOR, LICENSE, Values(node.treeNodes))
    {
      var children := Values(node.treeNodes);
      if |children| == 1 then children[0]
      else TopicDict(node.sourceId, node.title, node.description, node.lang, node.treeNodes)
    }
  }

  /** The plans of well-formed lessons, in order. */
  function LessonPlans(ls: seq<LessonNode>): (r: seq<LessonPlan>)
    requires forall i :: 0 <= i < |ls| ==> ls[i].WellFormed()
    ensures |r| == |ls| && forall i :: 0 <= i < |ls| ==> r[i] == ls[i].Plan()
    decreases |ls|
  {
    if ls == [] then []
    else LessonPlans(ls[..|ls| - 1]) + [ls[|ls| - 1].Plan()]
  }

  /** The lessons one resolved playlist contributes: one per `(title, url)` pair, in order. */
  function ToLessons(links: seq<NameUrl>, lang: string): (r: seq<LessonPlan>)
    ensures |r| == |links|
    ensures forall i :: 0 <= i < |links| ==> r[i] == LessonPlan(Some(links[i].0), links[i].1, lang)
    decreases |links|
  {
    if links == [] then []
    else
      var last := links[|links| - 1];
      ToLessons(links[..|links| - 1], lang) + [LessonPlan(Some(last.0), last.1, lang)]
  }

  /** The lessons of a subject so far, the cache contents and the playlists expanded so far. */
  datatype Generated = Generated(lessons: seq<LessonPlan>, files: map<string, seq<NameUrl>>, expanded: seq<string>)

  /**
   * One url of `auto_generate_lessons`: nothing happens if its resource
   * cannot be constructed; otherwise the playlist is resolved through the
   * cache and each of its `(title, url)` pairs becomes a lesson.
   */
  function Step(g: Generated, url: Url, lang: string, reuse: bool, env: Env): Generated
  {
    if env.rejects(url) then g
    else
      var res := Resolve(CleanUrl(url), g.files, reuse, env);
      Generated(g.lessons + ToLessons(res.links, lang), res.files,
                g.expanded + (if res.expanded then [CleanUrl(url)] else []))
  }

  /** `auto_generate_lessons(urls)` from the state `g`: the urls taken in order. */
  function Generate(urls: seq<Url>, lang: string, g: Generated, reuse: bool, env: Env): Generated
    decreases |urls|
  {
    if urls == [] then g
    else Step(Generate(urls[..|urls| - 1], lang, g, reuse, env), urls[|urls| - 1], lang, reuse, env)
  }

  lemma GenerateSnoc(us: seq<Url>, url: Url, lang: string, g: Generated, reuse: bool, env: Env)
    ensures Generate(us + [url], lang, g, reuse, env) == Step(Generate(us, lang, g, reuse, env), url, lang, reuse, env)
  {
    assert (us + [url])[..|us|] == us;
  }

  /** Generating from two lists of urls is generating from the first and then from the second. */
  lemma {:induction false} GenerateAppend(u1: seq<Url>, u2: seq<Url>, lang: string, g: Generated, reuse: bool, env: Env)
    ensures Generate(u1 + u2, lang, g, reuse, env) == Generate(u2, lang, Generate(u1, lang, g, reuse, env), reuse, env)
    decreases |u2|
  {
    if u2 == [] {
      assert u1 + u2 == u1;
    } else {
      var init := u2[..|u2| - 1];
      var url := u2[|u2| - 1];
      GenerateAppend(u1, init, lang, g, reuse, env);
      assert u2 == init + [url];
      assert u1 + u2 == (u1 + init) + [url];
      GenerateSnoc(u1 + init, url, lang, g, reuse, env);
      GenerateSnoc(init, url, lang, Generate(u1, lang, g, reuse, env), reuse, env);
    }
  }

  /** A url whose resource cannot be constructed contributes no lesson and touches no cache entry. */
  lemma GenerateSkipsRejected(u1: seq<Url>, bad: Url, u2: seq<Url>, lang: string, g: Generated, reuse: bool, env: Env)
    requires env.rejects(bad)
    ensures Generate(u1 + [bad] + u2, lang, g, reuse, env) == Generate(u1 + u2, lang, g, reuse, env)
  {
    GenerateSnoc(u1, bad, lang, g, reuse, env);
    GenerateAppend(u1 + [bad], u2, lang, g, reuse, env);
    GenerateAppend(u1, u2, lang, g, reuse, env);
  }

  /** Every entry of `small` is in `big` with the same contents. */
  ghost predicate Extends(big: map<string, seq<NameUrl>>, small: map<string, seq<NameUrl>>)
  {
    forall k :: k in small ==> k in big && big[k] == small[k]
  }

  /** With reuse on, one url leaves every existing entry alone and leaves an entry for itself. */
  lemma StepReuseExtends(g: Generated, url: Url, lang: string, env: Env)
    ensures Extends(Step(g, url, lang, true, env).files, g.files)
    ensures !env.rejects(url) ==> env.hash(CleanUrl(url)) in Step(g, url, lang, true, env).files
  {
  }

  /** With reuse on, an entry once in the cache is never rewritten, and every accepted url leaves one. */
  lemma {:induction false} GenerateReuseExtends(urls: seq<Url>, lang: string, g: Generated, env: Env)
    ensures Extends(Generate(urls, lang, g, true, env).files, g.files)
    ensures forall i :: 0 <= i < |urls| && !env.rejects(urls[i]) ==>
              env.hash(CleanUrl(urls[i])) in Generate(urls, lang, g, true, env).files
    decreases |urls|
  {
    if urls != [] {
      var init := urls[..|urls| - 1];
      var p := Generate(init, lang, g, true, env);
      GenerateReuseExtends(init, lang, g, env);
      StepReuseExtends(p, urls[|urls| - 1], lang, env);
      forall i | 0 <= i < |urls| - 1 ensures urls[i] == init[i] { }
    }
  }

  /**
   * Replaying with reuse on over a cache that already holds every entry a
   * reusing run left behind yields the same lessons, keeps the cache as it
   * is and expands nothing, whatever was expanded before the replay.
   */
  lemma {:induction false} GenerateReplay(urls: seq<Url>, lang: string, g: Generated,
                                          big: map<string, seq<NameUrl>>, e: seq<string>, env: Env)
    requires Extends(big, Generate(urls, lang, g, true, env).files)
    ensures Generate(urls, lang, Generated(g.lessons, big, e), true, env)
         == Generated(Generate(urls, lang, g, true, env).lessons, big, e)
    decreases |urls|
  {
    if urls != [] {
      var init := urls[..|urls| - 1];
      var url := urls[|urls| - 1];
      var p := Generate(init, lang, g, true, env);
      StepReuseExtends(p, url, lang, env);
      GenerateReplay(init, lang, g, big, e, env);
      if !env.rejects(url) {
        assert e + [] == e;
      }
    }
  }

  /**
   * Running the lesson generation a second time, with reuse on, over the
   * cache a reusing run left behind reproduces its lessons without a single
   * new expansion.
   */
  lemma GenerateReuseIdempotent(urls: seq<Url>, lang: string, g: Generated, env: Env)
    ensures var h := Generate(urls, lang, g, true, env);
            Generate(urls, lang, Generated(g.lessons, h.files, g.expanded), true, env)
              == Generated(h.lessons, h.files, g.expanded)
  {
    GenerateReplay(urls, lang, g, Generate(urls, lang, g, true, env).files, g.expanded, env);
  }

  /** What a subject node is made of. */
  datatype SubjectPlan = SubjectPlan(title: Option<string>, sourceId: string, lang: string, lessons: seq<LessonPlan>)

  class SubjectNode {
    const node: Node
    var lessons: seq<LessonNode>

    constructor(title: string, sourceId: string, lang: string, ghost place: Place)
      requires place.SubjectAt?
      ensures fresh(node)
      ensures node.title == Some(title) && node.sourceId == sourceId && node.lang == lang
      ensures node.description == None && node.treeNodes == [] && node.place == place
      ensures lessons == [] && Valid()
    {
      node := new Node(Some(title), sourceId, lang, place);
      lessons := [];
    }

    /** Every lesson is well formed and its node is placed under the subject's, at the lesson's index. */
    ghost predicate Valid()
      reads this
    {
      && node.place.SubjectAt?
      && forall i :: 0 <= i < |lessons| ==>
           lessons[i].WellFormed() && lessons[i].node.place == LessonAt(node.place.g, node.place.s, i)
    }

    ghost function Plan(): SubjectPlan
      reads this
      requires Valid()
    {
      SubjectPlan(node.title, node.sourceId, node.lang, LessonPlans(lessons))
    }

    /** The node of the lesson at index `k` is neither the subject's nor that of a lesson at another index. */
    lemma DistinctLesson(k: nat)
      requires Valid() && k < |lessons|
      ensures forall m :: 0 <= m < |lessons| ==> lessons[m].node != node
      ensures forall m :: 0 <= m < |lessons| && m != k ==> lessons[m].node != lessons[k].node
    {
      forall m | 0 <= m < |lessons| && m != k ensures lessons[m].node != lessons[k].node {
        assert lessons[m].node.place.l == m;
      }
    }

    /** The lessons, cache contents and expansions so far, as `Generate` tracks them. */
    ghost function Progress(store: VideoListStore): Generated
      reads this, store
      requires Valid()
    {
      Generated(LessonPlans(lessons), store.files, store.expansions)
    }

    /**
     * `auto_generate_lessons(urls)`: appends the lessons `Generate` describes,
     * each in a fresh node, and leaves the cache as `Generate` describes.
     */
    method AutoGenerateLessons(urls: seq<Url>, store: VideoListStore, loadVideoList: bool, env: Env)
      requires Valid()
      modifies this, store
      ensures Valid()
      ensures Progress(store) == Generate(urls, node.lang, old(Progress(store)), loadVideoList, env)
      ensures old(lessons) <= lessons
      ensures forall k :: |old(lessons)| <= k < |lessons| ==> fresh(lessons[k].node) && lessons[k].node.treeNodes == []
    {
      for i := 0 to |urls|
        invariant Valid()
        invariant Progress(store) == Generate(urls[..i], node.lang, old(Progress(store)), loadVideoList, env)
        invariant old(lessons) <= lessons
        invariant forall k :: |old(lessons)| <= k < |lessons| ==> fresh(lessons[k].node) && lessons[k].node.treeNodes == []
      {
        GenerateFromUrl(urls[i], store, loadVideoList, env);
        assert urls[..i + 1] == urls[..i] + [urls[i]];
        GenerateSnoc(urls[..i], urls[i], node.lang, old(Progress(store)), loadVideoList, env);
      }
      assert urls[..|urls|] == urls;
    }

    /** One pass of the loop of `auto_generate_lessons`: the `try`/`except`/`else` for one url. */
    method GenerateFromUrl(url: Url, store: VideoListStore, loadVideoList: bool, env: Env)
      requires Valid()
      modifies this, store
      ensures Valid()
      ensures Progress(store) == Step(old(Progress(store)), url, node.lang, loadVideoList, env)
      ensures old(lessons) <= lessons
      ensures forall k :: |old(lessons)| <= k < |lessons| ==> fresh(lessons[k].node) && lessons[k].node.treeNodes == []
    {
      if !env.rejects(url) {
        var youtube := new YouTubeResourceNode(url, "ar", false);
        var nameUrl := youtube.PlaylistNameLinks(store, loadVideoList, env);
        AddLessons(nameUrl);
      }
    }

    /** The inner loop of `auto_generate_lessons`: one fresh lesson per `(title, url)` pair, in order. */
    method AddLessons(links: seq<NameUrl>)
      requires Valid()
      modifies this
      ensures Valid()
      ensures LessonPlans(lessons) == old(LessonPlans(lessons)) + ToLessons(links, node.lang)
      ensures old(lessons) <= lessons
      ensures forall k :: |old(lessons)| <= k < |lessons| ==> fresh(lessons[k].node) && lessons[k].node.treeNodes == []
    {
      ghost var n0 := |lessons|;
      for j := 0 to |links|
        invariant Valid()
        invariant old(lessons) <= lessons && |lessons| == n0 + j
        invariant forall k :: n0 <= k < |lessons| ==> fresh(lessons[k].node) && lessons[k].node.treeNodes == []
        invariant forall k :: n0 <= k < |lessons| ==>
                    lessons[k].Plan() == LessonPlan(Some(links[k - n0].0), links[k - n0].1, node.lang)
      {
        var lesson := AddLesson(links[j].0, links[j].1);
      }
      LessonPlansExtend(old(lessons), lessons, links, node.lang);
    }

    /** `lesson = LessonNode(title=title, source_id=url, lang=self.lang)` and `self.lessons.append(lesson)`. */
    method AddLesson(title: string, url: Url) returns (lesson: LessonNode)
      requires Valid()
      modifies this
      ensures Valid() && lessons == old(lessons) + [lesson]
      ensures lesson.WellFormed() && lesson.Plan() == LessonPlan(Some(title), url, node.lang)
      ensures fresh(lesson.node) && lesson.node.treeNodes == []
    {
      lesson := new LessonNode(title, url, node.lang, LessonAt(node.place.g, node.place.s, |lessons|));
      lessons := lessons + [lesson];
    }
  }

  /**
   * Lessons appended one per `(title, url)` pair, each planned from its pair,
   * extend the plans by exactly `ToLessons` of the pairs.
   */
  lemma LessonPlansExtend(before: seq<LessonNode>, after: seq<LessonNode>, links: seq<NameUrl>, lang: string)
    requires forall i :: 0 <= i < |after| ==> after[i].WellFormed()
    requires before <= after && |after| == |before| + |links|
    requires forall k :: |before| <= k < |after| ==>
               after[k].Plan() == LessonPlan(Some(links[k - |before|].0), links[k - |before|].1, lang)
    ensures LessonPlans(after) == LessonPlans(before) + ToLessons(links, lang)
  {
    var l := LessonPlans(after);
    var r := LessonPlans(before) + ToLessons(links, lang);
    forall i | 0 <= i < |l| ensures l[i] == r[i] {
      if i < |before| {
        assert after[i] == before[i];
      }
    }
  }

  /** What a grade node is made of. */
  datatype GradePlan = GradePlan(title: Option<string>, sourceId: string, lang: string, subjects: seq<SubjectPlan>)

  class GradeNode {
    const node: Node
    var subjects: seq<SubjectNode>

    /** `GradeNode(title, source_id)`: the language keeps `Node`'s default, "en". */
    constructor(title: string, sourceId: string, ghost g: nat)
      ensures fresh(node)
      ensures node.title == Some(title) && node.sourceId == sourceId && node.lang == "en"
      ensures node.description == None && node.treeNodes == [] && node.place == GradeAt(g)
      ensures subjects == [] && Valid()
    {
      node := new Node(Some(title), sourceId, "en", GradeAt(g));
      subjects := [];
    }

    /** Every subject is valid and its node is placed under the grade's, at the subject's index. */
    ghost predicate Valid()
      reads this, subjects
    {
      && node.place.GradeAt?
      && forall i :: 0 <= i < |subjects| ==>
           subjects[i].Valid() && subjects[i].node.place == SubjectAt(node.place.g, i)
    }

    /** Only the subject at index `j` and its lessons lie within that subject's place: the grade and every other subject lie outside it. */
    lemma OutsideSubject(j: nat)
      requires Valid() && j < |subjects|
      ensures !Within(node.place, subjects[j].node.place)
      ensures forall m :: 0 <= m < |subjects| && m != j ==> !Within(subjects[m].node.place, subjects[j].node.place)
      ensures forall m, k :: 0 <= m < |subjects| && m != j && 0 <= k < |subjects[m].lessons| ==>
                !Within(subjects[m].lessons[k].node.place, subjects[j].node.place)
    {
      forall m, k | 0 <= m < |subjects| && m != j && 0 <= k < |subjects[m].lessons|
        ensures !Within(subjects[m].lessons[k].node.place, subjects[j].node.place)
      {
        assert subjects[m].lessons[k].node.place.s == m;
      }
    }

    /** `add_subject`: the subject goes last. */
    method AddSubject(subject: SubjectNode)
      modifies this
      ensures subjects == old(subjects) + [subject]
      ensures old(Valid()) && subject.Valid() && subject.node.place == SubjectAt(node.place.g, |old(subjects)|) ==> Valid()
      ensures old(forall j :: 0 <= j < |subjects| ==> subjects[j].node.treeNodes == []) && subject.node.treeNodes == [] ==>
                forall j :: 0 <= j < |subjects| ==> subjects[j].node.treeNodes == []
      ensures old(forall j, k :: 0 <= j < |subjects| && 0 <= k < |subjects[j].lessons| ==> subjects[j].lessons[k].node.treeNodes == [])
              && (forall k :: 0 <= k < |subject.lessons| ==> subject.lessons[k].node.treeNodes == []) ==>
                forall j, k :: 0 <= j < |subjects| && 0 <= k < |subjects[j].lessons| ==> subjects[j].lessons[k].node.treeNodes == []
    {
      subjects := subjects + [subject];
    }
  }
}
