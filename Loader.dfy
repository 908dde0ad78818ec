/**
 * `GradeJsonTree.load`: building the grade, subject and lesson nodes from the
 * parsed `resources.json`. Reading and parsing the file is outside the model;
 * `load` is given the parsed list of grades.
 */
module Loader {
  import opened Wrappers
  import opened Resource
  import opened Nodes

  /** One subject entry of `resources.json`. */
  datatype SubjectConfig = SubjectConfig(title: string, sourceId: string, lang: string, lessons: seq<Url>)

  /** One grade entry; `subjects` is `None` when the entry has no "subjects" key. */
  datatype GradeConfig = GradeConfig(title: string, sourceId: string, subjects: Option<seq<SubjectConfig>>)

  /** What loading has produced so far: the plans in order, the cache contents and the expansions. */
  datatype Loaded<P> = Loaded(plans: seq<P>, files: map<string, seq<NameUrl>>, expanded: seq<string>)

  /** One subject entry: a subject node whose lessons are generated from its urls. */
  function SubjectStep(acc: Loaded<SubjectPlan>, c: SubjectConfig, reuse: bool, env: Env): Loaded<SubjectPlan>
  {
    var g := Generate(c.lessons, c.lang, Generated([], acc.files, acc.expanded), reuse, env);
    Loaded(acc.plans + [SubjectPlan(Some(c.title), c.sourceId, c.lang, g.lessons)], g.files, g.expanded)
  }

  /** The subject entries of one grade, in order. */
  function LoadSubjects(cs: seq<SubjectConfig>, acc: Loaded<SubjectPlan>, reuse: bool, env: Env): Loaded<SubjectPlan>
    decreases |cs|
  {
    if cs == [] then acc
    else SubjectStep(LoadSubjects(cs[..|cs| - 1], acc, reuse, env), cs[|cs| - 1], reuse, env)
  }

  /** One grade entry: kept, in English, only when it has a "subjects" key. */
  function GradeStep(acc: Loaded<GradePlan>, c: GradeConfig, reuse: bool, env: Env): Loaded<GradePlan>
  {
    match c.subjects
    case None => acc
    case Some(ss) =>
      var l := LoadSubjects(ss, Loaded([], acc.files, acc.expanded), reuse, env);
      Loaded(acc.plans + [GradePlan(Some(c.title), c.sourceId, "en", l.plans)], l.files, l.expanded)
  }

  /** `load` over the parsed grade entries, in order. */
  function LoadGrades(cs: seq<GradeConfig>, acc: Loaded<GradePlan>, reuse: bool, env: Env): Loaded<GradePlan>
    decreases |cs|
  {
    if cs == [] then acc
    else GradeStep(LoadGrades(cs[..|cs| - 1], acc, reuse, env), cs[|cs| - 1], reuse, env)
  }

  /** The grade entries `load` keeps: those with a "subjects" key, in order. */
  function KeptGrades(cs: seq<GradeConfig>): (r: seq<GradeConfig>)
    ensures |r| <= |cs|
    ensures forall i :: 0 <= i < |r| ==> r[i] in cs && r[i].subjects.Some?
    ensures forall i :: 0 <= i < |cs| && cs[i].subjects.Some? ==> cs[i] in r
    decreases |cs|
  {
    if cs == [] then []
    else
      var init := KeptGrades(cs[..|cs| - 1]);
      assert forall i :: 0 <= i < |cs| - 1 ==> cs[i] == cs[..|cs| - 1][i];
      if cs[|cs| - 1].subjects.Some? then init + [cs[|cs| - 1]] else init
  }

  /** Keeping the entries of two lists is keeping those of the first, then those of the second: file order is kept. */
  lemma {:induction false} KeptGradesAppend(a: seq<GradeConfig>, b: seq<GradeConfig>)
    ensures KeptGrades(a + b) == KeptGrades(a) + KeptGrades(b)
    decreases |b|
  {
    if b == [] {
      assert a + b == a;
    } else {
      var init := b[..|b| - 1];
      KeptGradesAppend(a, init);
      assert (a + b)[..|a + b| - 1] == a + init;
      assert (a + b)[|a + b| - 1] == b[|b| - 1];
    }
  }

  /** The grade plan built for an entry with subjects carries its title, its id, the default language and one subject plan per subject entry. */
  ghost predicate GradeShape(p: GradePlan, c: GradeConfig)
    requires c.subjects.Some?
  {
    && p.title == Some(c.title) && p.sourceId == c.sourceId && p.lang == "en"
    && |p.subjects| == |c.subjects.value|
    && forall j :: 0 <= j < |p.subjects| ==>
         && p.subjects[j].title == Some(c.subjects.value[j].title)
         && p.subjects[j].sourceId == c.subjects.value[j].sourceId
         && p.subjects[j].lang == c.subjects.value[j].lang
  }

  /** One grade entry adds nothing without a "subjects" key, and one grade plan of its shape with one. */
  lemma GradeStepShape(acc: Loaded<GradePlan>, c: GradeConfig, reuse: bool, env: Env)
    ensures c.subjects.None? ==> GradeStep(acc, c, reuse, env) == acc
    ensures c.subjects.Some? ==>
              var r := GradeStep(acc, c, reuse, env).plans;
              |r| == |acc.plans| + 1 && r[..|acc.plans|] == acc.plans && GradeShape(r[|acc.plans|], c)
  {
    if c.subjects.Some? {
      LoadSubjectsShape(c.subjects.value, Loaded([], acc.files, acc.expanded), reuse, env);
    }
  }

  /**
   * One grade plan per kept entry, in order, with the entry's title and id,
   * the default language and one subject plan per subject entry, each with
   * the entry's title, id and language.
   */
  lemma {:induction false} LoadGradesShape(cs: seq<GradeConfig>, acc: Loaded<GradePlan>, reuse: bool, env: Env)
    ensures var r := LoadGrades(cs, acc, reuse, env).plans;
            && |r| == |acc.plans| + |KeptGrades(cs)|
            && r[..|acc.plans|] == acc.plans
            && forall i :: 0 <= i < |KeptGrades(cs)| ==> GradeShape(r[|acc.plans| + i], KeptGrades(cs)[i])
    decreases |cs|
  {
    if cs != [] {
      var init := cs[..|cs| - 1];
      var c := cs[|cs| - 1];
      var prev := LoadGrades(init, acc, reuse, env);
      LoadGradesShape(init, acc, reuse, env);
      GradeStepShape(prev, c, reuse, env);
      if c.subjects.Some? {
        assert KeptGrades(cs) == KeptGrades(init) + [c];
        var r := LoadGrades(cs, acc, reuse, env).plans;
        assert r[..|prev.plans|] == prev.plans;
        forall i | 0 <= i < |KeptGrades(init)|
          ensures GradeShape(r[|acc.plans| + i], KeptGrades(cs)[i])
        {
          assert r[|acc.plans| + i] == prev.plans[|acc.plans| + i];
        }
      }
    }
  }

  /** One subject plan per entry, in order, carrying the entry's title, id and language. */
  lemma {:induction false} LoadSubjectsShape(cs: seq<SubjectConfig>, acc: Loaded<SubjectPlan>, reuse: bool, env: Env)
    ensures var r := LoadSubjects(cs, acc, reuse, env).plans;
            && |r| == |acc.plans| + |cs|
            && r[..|acc.plans|] == acc.plans
            && forall j :: 0 <= j < |cs| ==>
                 r[|acc.plans| + j].title == Some(cs[j].title)
                 && r[|acc.plans| + j].sourceId == cs[j].sourceId
                 && r[|acc.plans| + j].lang == cs[j].lang
    decreases |cs|
  {
    if cs != [] {
      LoadSubjectsShape(cs[..|cs| - 1], acc, reuse, env);
    }
  }

  /** With reuse on, a subject entry rewrites no cache entry. */
  lemma SubjectStepReuseExtends(acc: Loaded<SubjectPlan>, c: SubjectConfig, env: Env)
    ensures Extends(SubjectStep(acc, c, true, env).files, acc.files)
  {
    GenerateReuseExtends(c.lessons, c.lang, Generated([], acc.files, acc.expanded), env);
  }

  /** With reuse on, loading subject entries rewrites no cache entry. */
  lemma {:induction false} LoadSubjectsReuseExtends(cs: seq<SubjectConfig>, acc: Loaded<SubjectPlan>, env: Env)
    ensures Extends(LoadSubjects(cs, acc, true, env).files, acc.files)
    decreases |cs|
  {
    if cs != [] {
      LoadSubjectsReuseExtends(cs[..|cs| - 1], acc, env);
      SubjectStepReuseExtends(LoadSubjects(cs[..|cs| - 1], acc, true, env), cs[|cs| - 1], env);
    }
  }

  /** With reuse on, a grade entry rewrites no cache entry. */
  lemma GradeStepReuseExtends(acc: Loaded<GradePlan>, c: GradeConfig, env: Env)
    ensures Extends(GradeStep(acc, c, true, env).files, acc.files)
  {
    if c.subjects.Some? {
      LoadSubjectsReuseExtends(c.subjects.value, Loaded([], acc.files, acc.expanded), env);
    }
  }

  /** Replaying one subject entry with reuse on over a cache holding its entries: same plans, same cache, no expansion. */
  lemma SubjectStepReplay(acc: Loaded<SubjectPlan>, c: SubjectConfig, big: map<string, seq<NameUrl>>,
                          e: seq<string>, env: Env)
    requires Extends(big, SubjectStep(acc, c, true, env).files)
    ensures SubjectStep(Loaded(acc.plans, big, e), c, true, env) == Loaded(SubjectStep(acc, c, true, env).plans, big, e)
  {
    GenerateReplay(c.lessons, c.lang, Generated([], acc.files, acc.expanded), big, e, env);
  }

  /** `SubjectStepReplay` over a list of subject entries. */
  lemma {:induction false} LoadSubjectsReplay(cs: seq<SubjectConfig>, acc: Loaded<SubjectPlan>,
                                              big: map<string, seq<NameUrl>>, e: seq<string>, env: Env)
    requires Extends(big, LoadSubjects(cs, acc, true, env).files)
    ensures LoadSubjects(cs, Loaded(acc.plans, big, e), true, env) == Loaded(LoadSubjects(cs, acc, true, env).plans, big, e)
    decreases |cs|
  {
    if cs != [] {
      var init := cs[..|cs| - 1];
      var prev := LoadSubjects(init, acc, true, env);
      SubjectStepReuseExtends(prev, cs[|cs| - 1], env);
      LoadSubjectsReplay(init, acc, big, e, env);
      SubjectStepReplay(prev, cs[|cs| - 1], big, e, env);
    }
  }

  /** Replaying one grade entry with reuse on over a cache holding its entries: same plans, same cache, no expansion. */
  lemma GradeStepReplay(acc: Loaded<GradePlan>, c: GradeConfig, big: map<string, seq<NameUrl>>,
                        e: seq<string>, env: Env)
    requires Extends(big, GradeStep(acc, c, true, env).files)
    ensures GradeStep(Loaded(acc.plans, big, e), c, true, env) == Loaded(GradeStep(acc, c, true, env).plans, big, e)
  {
    if c.subjects.Some? {
      LoadSubjectsReplay(c.subjects.value, Loaded([], acc.files, acc.expanded), big, e, env);
    }
  }

  /** `GradeStepReplay` over a list of grade entries. */
  lemma {:induction false} LoadGradesReplay(cs: seq<GradeConfig>, acc: Loaded<GradePlan>,
                                            big: map<string, seq<NameUrl>>, e: seq<string>, env: Env)
    requires Extends(big, LoadGrades(cs, acc, true, env).files)
    ensures LoadGrades(cs, Loaded(acc.plans, big, e), true, env) == Loaded(LoadGrades(cs, acc, true, env).plans, big, e)
    decreases |cs|
  {
    if cs != [] {
      var init := cs[..|cs| - 1];
      var prev := LoadGrades(init, acc, true, env);
      GradeStepReuseExtends(prev, cs[|cs| - 1], env);
      LoadGradesReplay(init, acc, big, e, env);
      GradeStepReplay(prev, cs[|cs| - 1], big, e, env);
    }
  }

  /**
   * Loading twice with reuse on: the second load, over the cache the first
   * left behind, builds the same grade plans, leaves the cache as it is and
   * expands no playlist.
   */
  lemma LoadReuseIdempotent(config: seq<GradeConfig>, files: map<string, seq<NameUrl>>,
                            e: seq<string>, e': seq<string>, env: Env)
    ensures var h := LoadGrades(config, Loaded([], files, e), true, env);
            LoadGrades(config, Loaded([], h.files, e'), true, env) == Loaded(h.plans, h.files, e')
  {
    LoadGradesReplay(config, Loaded([], files, e), LoadGrades(config, Loaded([], files, e), true, env).files, e', env);
  }

  /** The body of the inner loop of `load` for one subject entry: build the subject and generate its lessons. */
  method LoadSubject(c: SubjectConfig, ghost place: Place, ghost plans: seq<SubjectPlan>,
                     store: VideoListStore, reuse: bool, env: Env)
    returns (subject: SubjectNode)
    requires place.SubjectAt?
    modifies store
    ensures fresh(subject) && fresh(subject.node) && subject.node.place == place
    ensures subject.Valid() && subject.node.treeNodes == []
    ensures forall k :: 0 <= k < |subject.lessons| ==> fresh(subject.lessons[k].node) && subject.lessons[k].node.treeNodes == []
    ensures SubjectStep(Loaded(plans, old(store.files), old(store.expansions)), c, reuse, env)
         == Loaded(plans + [subject.Plan()], store.files, store.expansions)
  {
    subject := new SubjectNode(c.title, c.sourceId, c.lang, place);
    subject.AutoGenerateLessons(c.lessons, store, reuse, env);
  }

  /** One pass of the inner loop of `load`: the subject built from `c` goes last in `grade`. */
  method LoadInto(grade: GradeNode, c: SubjectConfig, ghost plans: seq<SubjectPlan>,
                  store: VideoListStore, reuse: bool, env: Env)
    returns (subject: SubjectNode)
    requires grade.Valid()
    requires forall j :: 0 <= j < |grade.subjects| ==> grade.subjects[j].node.treeNodes == []
    requires forall j, k :: 0 <= j < |grade.subjects| && 0 <= k < |grade.subjects[j].lessons| ==>
               grade.subjects[j].lessons[k].node.treeNodes == []
    modifies grade, store
    ensures grade.Valid() && grade.subjects == old(grade.subjects) + [subject] && subject.Valid()
    ensures forall j :: 0 <= j < |old(grade.subjects)| ==> grade.subjects[j].Plan() == old(grade.subjects[j].Plan())
    ensures forall j :: 0 <= j < |grade.subjects| ==> grade.subjects[j].node.treeNodes == []
    ensures forall j, k :: 0 <= j < |grade.subjects| && 0 <= k < |grade.subjects[j].lessons| ==>
              grade.subjects[j].lessons[k].node.treeNodes == []
    ensures SubjectStep(Loaded(plans, old(store.files), old(store.expansions)), c, reuse, env)
         == Loaded(plans + [subject.Plan()], store.files, store.expansions)
    ensures fresh(subject.node) && forall k :: 0 <= k < |subject.lessons| ==> fresh(subject.lessons[k].node)
  {
    subject := LoadSubject(c, SubjectAt(grade.node.place.g, |grade.subjects|), plans, store, reuse, env);
    assert forall j, k :: 0 <= j < |grade.subjects| && 0 <= k < |grade.subjects[j].lessons| ==>
             grade.subjects[j].lessons[k].node.treeNodes == [];
    grade.AddSubject(subject);
  }

  /**
   * The inner loop of `load`: one subject per entry, in order, each planned as
   * `LoadSubjects` describes, with every table still empty.
   */
  method LoadSubjectsInto(grade: GradeNode, cs: seq<SubjectConfig>, store: VideoListStore, reuse: bool, env: Env)
    requires grade.Valid() && grade.subjects == []
    modifies grade, store
    ensures grade.Valid() && |grade.subjects| == |cs|
    ensures var r := LoadSubjects(cs, Loaded([], old(store.files), old(store.expansions)), reuse, env);
            && |r.plans| == |cs|
            && (forall j :: 0 <= j < |cs| ==> grade.subjects[j].Plan() == r.plans[j])
            && store.files == r.files && store.expansions == r.expanded
    ensures forall j :: 0 <= j < |cs| ==> grade.subjects[j].node.treeNodes == []
    ensures forall j, k :: 0 <= j < |cs| && 0 <= k < |grade.subjects[j].lessons| ==>
              grade.subjects[j].lessons[k].node.treeNodes == []
    ensures FreshNodes(grade)
  {
    ghost var acc := Loaded([], store.files, store.expansions);
    for i := 0 to |cs|
      invariant grade.Valid() && |grade.subjects| == i
      invariant acc == LoadSubjects(cs[..i], Loaded([], old(store.files), old(store.expansions)), reuse, env)
      invariant |acc.plans| == i && store.files == acc.files && store.expansions == acc.expanded
      invariant forall j :: 0 <= j < i ==> grade.subjects[j].Plan() == acc.plans[j]
      invariant forall j :: 0 <= j < i ==> fresh(grade.subjects[j].node) && grade.subjects[j].node.treeNodes == []
      invariant forall j, k :: 0 <= j < i && 0 <= k < |grade.subjects[j].lessons| ==>
                  fresh(grade.subjects[j].lessons[k].node) && grade.subjects[j].lessons[k].node.treeNodes == []
    {
      var subject := LoadInto(grade, cs[i], acc.plans, store, reuse, env);
      assert cs[..i + 1][..i] == cs[..i];
      acc := SubjectStep(acc, cs[i], reuse, env);
    }
    assert cs[..|cs|] == cs;
  }

  /** The subject and lesson nodes of `grade` were all allocated since the previous state. */
  twostate predicate FreshNodes(new grade: GradeNode)
    reads grade, grade.subjects
  {
    forall j :: 0 <= j < |grade.subjects| ==>
      && fresh(grade.subjects[j].node)
      && forall k :: 0 <= k < |grade.subjects[j].lessons| ==> fresh(grade.subjects[j].lessons[k].node)
  }

  /** A grade node made of `p`: its title, id and language, and one subject per subject plan, each made of it. */
  ghost predicate Matches(grade: GradeNode, p: GradePlan)
    reads grade, grade.subjects
    requires grade.Valid()
  {
    && grade.node.title == p.title && grade.node.sourceId == p.sourceId && grade.node.lang == p.lang
    && |grade.subjects| == |p.subjects|
    && forall j :: 0 <= j < |p.subjects| ==> grade.subjects[j].Plan() == p.subjects[j]
  }

  /**
   * One pass of the outer loop of `load`: the grade node is built before its
   * "subjects" key is looked at, and its subjects are loaded when it has one.
   */
  method LoadGrade(c: GradeConfig, ghost g: nat, ghost plans: seq<GradePlan>,
                   store: VideoListStore, reuse: bool, env: Env)
    returns (grade: GradeNode)
    modifies store
    ensures fresh(grade) && fresh(grade.node) && FreshNodes(grade)
    ensures grade.Valid() && grade.node.place == GradeAt(g) && grade.node.treeNodes == []
    ensures var r := GradeStep(Loaded(plans, old(store.files), old(store.expansions)), c, reuse, env);
            && store.files == r.files && store.expansions == r.expanded
            && (c.subjects.None? ==> r.plans == plans)
            && (c.subjects.Some? ==> r.plans == plans + [r.plans[|plans|]] && Matches(grade, r.plans[|plans|]))
    ensures forall j :: 0 <= j < |grade.subjects| ==> grade.subjects[j].node.treeNodes == []
    ensures forall j, k :: 0 <= j < |grade.subjects| && 0 <= k < |grade.subjects[j].lessons| ==>
              grade.subjects[j].lessons[k].node.treeNodes == []
  {
    grade := new GradeNode(c.title, c.sourceId, g);
    if c.subjects.Some? {
      LoadSubjectsInto(grade, c.subjects.value, store, reuse, env);
    }
  }

  /** The grades loaded so far, in file order. */
  class GradeJsonTree {
    var grades: seq<GradeNode>

    constructor()
      ensures grades == []
    {
      grades := [];
    }

    /**
     * `load` over the parsed entries: every entry builds a grade node, and
     * the ones with a "subjects" key are appended, in order, each made of the
     * plan `LoadGrades` describes and with every table still empty.
     */
    method Load(config: seq<GradeConfig>, store: VideoListStore, reuse: bool, env: Env)
      requires forall g :: 0 <= g < |grades| ==> grades[g].Valid() && grades[g].node.place == GradeAt(g)
      modifies this, store
      ensures old(grades) <= grades
      ensures forall g :: 0 <= g < |grades| ==> grades[g].Valid() && grades[g].node.place == GradeAt(g)
      ensures var r := LoadGrades(config, Loaded([], old(store.files), old(store.expansions)), reuse, env);
              && |grades| == |old(grades)| + |r.plans|
              && (forall g :: 0 <= g < |r.plans| ==> Matches(grades[|old(grades)| + g], r.plans[g]))
              && store.files == r.files && store.expansions == r.expanded
      ensures forall g :: |old(grades)| <= g < |grades| ==> grades[g].node.treeNodes == []
      ensures forall g :: |old(grades)| <= g < |grades| ==> fresh(grades[g].node) && FreshNodes(grades[g])
      ensures forall g, j :: |old(grades)| <= g < |grades| && 0 <= j < |grades[g].subjects| ==>
                grades[g].subjects[j].node.treeNodes == []
      ensures forall g, j, k :: |old(grades)| <= g < |grades| && 0 <= j < |grades[g].subjects|
                                && 0 <= k < |grades[g].subjects[j].lessons| ==>
                grades[g].subjects[j].lessons[k].node.treeNodes == []
    {
      ghost var n0 := |grades|;
      ghost var acc := Loaded([], store.files, store.expansions);
      for i := 0 to |config|
        invariant old(grades) <= grades
        invariant acc == LoadGrades(config[..i], Loaded([], old(store.files), old(store.expansions)), reuse, env)
        invariant |grades| == n0 + |acc.plans| && store.files == acc.files && store.expansions == acc.expanded
        invariant forall g :: 0 <= g < |grades| ==> grades[g].Valid() && grades[g].node.place == GradeAt(g)
        invariant forall g :: 0 <= g < |acc.plans| ==> Matches(grades[n0 + g], acc.plans[g])
        invariant forall g :: n0 <= g < |grades| ==> grades[g].node.treeNodes == []
        invariant forall g :: n0 <= g < |grades| ==> fresh(grades[g].node) && FreshNodes(grades[g])
        invariant forall g, j :: n0 <= g < |grades| && 0 <= j < |grades[g].subjects| ==>
                    grades[g].subjects[j].node.treeNodes == []
        invariant forall g, j, k :: n0 <= g < |grades| && 0 <= j < |grades[g].subjects|
                                    && 0 <= k < |grades[g].subjects[j].lessons| ==>
                    grades[g].subjects[j].lessons[k].node.treeNodes == []
      {
        LoadEntry(config[i], n0, acc.plans, store, reuse, env);
        assert config[..i + 1][..i] == config[..i];
        acc := GradeStep(acc, config[i], reuse, env);
      }
      assert config[..|config|] == config;
    }

    /** One pass of the loop of `load`: build the grade, and append it when it has a "subjects" key. */
    method LoadEntry(c: GradeConfig, ghost n0: nat, ghost plans: seq<GradePlan>,
                     store: VideoListStore, reuse: bool, env: Env)
      requires |grades| == n0 + |plans|
      requires forall g :: 0 <= g < |grades| ==> grades[g].Valid() && grades[g].node.place == GradeAt(g)
      requires forall g :: 0 <= g < |plans| ==> Matches(grades[n0 + g], plans[g])
      requires forall g :: n0 <= g < |grades| ==> grades[g].node.treeNodes == []
      requires forall g, j :: n0 <= g < |grades| && 0 <= j < |grades[g].subjects| ==>
                 grades[g].subjects[j].node.treeNodes == []
      requires forall g, j, k :: n0 <= g < |grades| && 0 <= j < |grades[g].subjects|
                                 && 0 <= k < |grades[g].subjects[j].lessons| ==>
                 grades[g].subjects[j].lessons[k].node.treeNodes == []
      modifies this, store
      ensures old(grades) <= grades
      ensures forall g :: 0 <= g < |grades| ==> grades[g].Valid() && grades[g].node.place == GradeAt(g)
      ensures var r := GradeStep(Loaded(plans, old(store.files), old(store.expansions)), c, reuse, env);
              && |grades| == n0 + |r.plans|
              && store.files == r.files && store.expansions == r.expanded
              && (forall g :: 0 <= g < |r.plans| ==> Matches(grades[n0 + g], r.plans[g]))
      ensures forall g :: n0 <= g < |grades| ==> grades[g].node.treeNodes == []
      ensures forall g, j :: n0 <= g < |grades| && 0 <= j < |grades[g].subjects| ==>
                grades[g].subjects[j].node.treeNodes == []
      ensures forall g, j, k :: n0 <= g < |grades| && 0 <= j < |grades[g].subjects|
                                && 0 <= k < |grades[g].subjects[j].lessons| ==>
                grades[g].subjects[j].lessons[k].node.treeNodes == []
      ensures forall g :: |old(grades)| <= g < |grades| ==> fresh(grades[g].node) && FreshNodes(grades[g])
    {
      var grade := LoadGrade(c, |grades|, plans, store, reuse, env);
      if c.subjects.Some? {
        AppendGrade(grade, n0, plans, GradeStep(Loaded(plans, old(store.files), old(store.expansions)), c, reuse, env).plans[|plans|]);
      }
    }

    /** `self.grades.append(grade_obj)`: the grade goes last, made of `p` and with every table empty. */
    method AppendGrade(grade: GradeNode, ghost n0: nat, ghost plans: seq<GradePlan>, ghost p: GradePlan)
      requires |grades| == n0 + |plans|
      requires forall g :: 0 <= g < |grades| ==> grades[g].Valid() && grades[g].node.place == GradeAt(g)
      requires grade.Valid() && grade.node.place == GradeAt(|grades|) && Matches(grade, p)
      requires forall g :: 0 <= g < |plans| ==> Matches(grades[n0 + g], plans[g])
      requires forall g :: n0 <= g < |grades| ==> grades[g].node.treeNodes == []
      requires forall g, j :: n0 <= g < |grades| && 0 <= j < |grades[g].subjects| ==>
                 grades[g].subjects[j].node.treeNodes == []
      requires forall g, j, k :: n0 <= g < |grades| && 0 <= j < |grades[g].subjects|
                                 && 0 <= k < |grades[g].subjects[j].lessons| ==>
                 grades[g].subjects[j].lessons[k].node.treeNodes == []
      requires grade.node.treeNodes == []
      requires forall j :: 0 <= j < |grade.subjects| ==> grade.subjects[j].node.treeNodes == []
      requires forall j, k :: 0 <= j < |grade.subjects| && 0 <= k < |grade.subjects[j].lessons| ==>
                 grade.subjects[j].lessons[k].node.treeNodes == []
      modifies this
      ensures grades == old(grades) + [grade]
      ensures forall g :: 0 <= g < |grades| ==> grades[g].Valid() && grades[g].node.place == GradeAt(g)
      ensures forall g :: 0 <= g < |plans| + 1 ==> Matches(grades[n0 + g], (plans + [p])[g])
      ensures forall g :: n0 <= g < |grades| ==> grades[g].node.treeNodes == []
      ensures forall g, j :: n0 <= g < |grades| && 0 <= j < |grades[g].subjects| ==>
                grades[g].subjects[j].node.treeNodes == []
      ensures forall g, j, k :: n0 <= g < |grades| && 0 <= j < |grades[g].subjects|
                                && 0 <= k < |grades[g].subjects[j].lessons| ==>
                grades[g].subjects[j].lessons[k].node.treeNodes == []
    {
      grades := grades + [grade];
    }
  }
}
