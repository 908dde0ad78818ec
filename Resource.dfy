/**
 * `YouTubeResourceNode`: the leaf media node, its URL normalisers, its
 * subtitle descriptors, its rendering, and the playlist resolution that
 * memoises its result in a store keyed by a hash of the playlist's id.
 *
 * The calls into youtube_dl and pressurecooker, SHA-1 and the cache files on
 * disk are outside the model: they are the fields of `Env`, functions of
 * their argument, and the directory of cache files is `VideoListStore`.
 */
module Resource {
  import opened Wrappers
  import opened Text
  import opened Records

  /** A content reference. `clean_url` reads `url[-1]`, which raises on "" and is caught nowhere. */
  type Url = s: string | |s| > 0 witness "/"

  /** One `(title, url)` pair of a resolved playlist. */
  type NameUrl = (string, Url)

  /** What `YouTubeResource.download` reports: the local file (if any) and the video's title. */
  datatype Fetched = Fetched(filename: Option<string>, title: string)

  /** What `get_resource_subtitles` reports: the video id and, if present, the subtitle languages in key order. */
  datatype SubtitleInfo = SubtitleInfo(id: string, subtitles: Option<seq<string>>)

  /** The foreign calls, each a function of its argument. */
  datatype Env = Env(
    rejects: Url -> bool,                     // constructing a resource for the url raises an extraction error
    expand: string -> seq<Url>,               // `playlist_links()`: the entry urls collected before any caught error
    infoTitle: string -> string,              // `get_resource_info()["title"]`
    fetch: string -> Fetched,                 // `YouTubeResource.download` into the fixed DATA_DIR
    subtitles: string -> Option<SubtitleInfo>, // `get_resource_subtitles()`
    hash: string -> string)                   // `hashlib.sha1(source_id).hexdigest()`

  /**
   * `clean_url`: drops one trailing "/" if the raw last character is "/",
   * then strips whitespace.
   */
  function CleanUrl(url: Url): (r: string)
    ensures Trimmed(r) && |r| <= |url|
    ensures url[|url| - 1] != '/' && Trimmed(url) ==> r == url
  {
    var u := if url[|url| - 1] == '/' then url[..|url| - 1] else url;
    Strip(u)
  }

  /** A trimmed reference followed by one "/" comes back without the "/". */
  lemma CleanUrlDropsSlash(base: string)
    requires Trimmed(base)
    ensures CleanUrl(base + "/") == base
  {
    assert (base + "/")[..|base|] == base;
  }

  /**
   * The slash is removed before the whitespace, so a "/" followed by a space
   * survives one cleaning but not a second: cleaning is not idempotent.
   */
  lemma CleanUrlNotIdempotent(base: string)
    requires base != [] && Trimmed(base)
    ensures CleanUrl(base + "/ ") == base + "/"
    ensures CleanUrl(CleanUrl(base + "/ ")) == base != CleanUrl(base + "/ ")
  {
    var u := base + "/ ";
    var v := base + "/";
    assert u[0] == base[0] && u[|u| - 1] == ' ';
    assert StripLeft(u) == u;
    assert u[..|u| - 1] == v && v[|v| - 1] == '/';
    assert StripRight(v) == v;
    assert StripRight(u) == v;
    CleanUrlDropsSlash(base);
    assert |base| < |v|;
  }

  /**
   * `transform_embed`: keeps what precedes the first "?", turns every
   * "embed/" into "watch?v=" and strips whitespace. No "embed/" is left.
   */
  function TransformEmbed(url: string): (r: string)
    ensures Trimmed(r)
    ensures !Contains(r, "embed/")
  {
    var head := BeforeFirst(url, '?');
    var replaced := Replace(head, "embed/", "watch?v=");
    ReplaceRemovesAll(head, "embed/", "watch?v=");
    var r := Strip(replaced);
    StripIsSlice(replaced);
    r
  }

  /** Stripping keeps a contiguous slice, so it cannot create an occurrence. */
  lemma StripIsSlice(s: string)
    ensures !Contains(s, "embed/") ==> !Contains(Strip(s), "embed/")
  {
    StripKeepsMiddle(s);
    var i, j :| 0 <= i <= j <= |s| && Strip(s) == s[i..j];
    if !Contains(s, "embed/") {
      AbsentFromSlice(s, "embed/", i, j);
    }
  }

  /** A reference with no "?" and no "embed/" is only stripped. */
  lemma TransformEmbedPlain(url: string)
    requires '?' !in url && !Contains(url, "embed/")
    ensures TransformEmbed(url) == Strip(url)
  {
    assert BeforeFirst(url, '?') == url;
    ReplaceAbsent(url, "embed/", "watch?v=");
  }

  /** Everything from the first "?" on is dropped before "embed/" is looked for. */
  lemma TransformEmbedCutsQuery(head: string, tail: string)
    requires '?' !in head
    ensures TransformEmbed(head + "?" + tail) == TransformEmbed(head)
  {
    var s := head + "?" + tail;
    var b := BeforeFirst(s, '?');
    assert s[..|head|] == head && s[|head|] == '?';
    assert b == head;
    assert BeforeFirst(head, '?') == head;
  }

  /**
   * One "embed/" between two parts that hold no "?" and no "embed/" of their
   * own becomes "watch?v=", and the whole is stripped.
   */
  lemma TransformEmbedRewrites(a: string, b: string)
    requires '?' !in a && '?' !in b
    requires !Contains(a, "embed/") && !Contains(b, "embed/")
    ensures TransformEmbed(a + "embed/" + b) == Strip(a + "watch?v=" + b)
  {
    var x := "embed/" + b;
    var s := a + x;
    assert a + "embed/" + b == s;
    assert '?' !in x;
    assert BeforeFirst(s, '?') == s;
    forall i | 0 <= i < |a| ensures !OccursAt(s, "embed/", i) {
      if i + 6 <= |a| {
        assert s[i..i + 6] == a[i..i + 6];
        assert !OccursAt(a, "embed/", i);
      } else if i + 6 <= |s| {
        assert s[i + 5] == x[i + 5 - |a|] != '/';
        assert s[i..i + 6][5] != "embed/"[5];
      }
    }
    ReplaceAfterPrefix(a, x, "embed/", "watch?v=");
    assert x[..6] == "embed/" && x[6..] == b;
    ReplaceAbsent(b, "embed/", "watch?v=");
    assert a + ("watch?v=" + b) == a + "watch?v=" + b;
  }

  /**
   * `is_youtube`: the url mentions "youtube" or "youtu.be" and, unless a
   * channel url is wanted, mentions neither "user" nor "/c/".
   */
  function IsYoutube(url: string, getChannel: bool): (r: bool)
    ensures r <==> (Contains(url, "youtube") || Contains(url, "youtu.be"))
                   && (getChannel || (!Contains(url, "user") && !Contains(url, "/c/")))
  {
    var youtube := Find(url, "youtube") != -1 || Find(url, "youtu.be") != -1;
    if !getChannel then youtube && Find(url, "user") == -1 && Find(url, "/c/") == -1
    else youtube
  }

  /** One `(title, url)` pair: the title is the one reported for the cleaned url. */
  function TitledLink(url: Url, env: Env): NameUrl
  {
    (env.infoTitle(CleanUrl(url)), url)
  }

  /** The `(title, url)` pairs built from expanded links: one per link, in link order. */
  function NameLinks(urls: seq<Url>, env: Env): (r: seq<NameUrl>)
    ensures |r| == |urls|
    ensures forall i :: 0 <= i < |urls| ==> r[i] == TitledLink(urls[i], env)
    decreases |urls|
  {
    if urls == [] then []
    else NameLinks(urls[..|urls| - 1], env) + [TitledLink(urls[|urls| - 1], env)]
  }

  /** The outcome of `playlist_name_links`: the list, the cache afterwards, and whether it expanded. */
  datatype Resolution = Resolution(links: seq<NameUrl>, files: map<string, seq<NameUrl>>, expanded: bool)

  /**
   * `playlist_name_links` on the cache contents `files`: a stored entry is
   * returned as it is when reuse is on; otherwise the playlist is expanded
   * and the fresh list is written under the key, replacing any old entry.
   */
  function Resolve(sourceId: string, files: map<string, seq<NameUrl>>, loadVideoList: bool, env: Env): (r: Resolution)
    ensures r.expanded <==> !(env.hash(sourceId) in files && loadVideoList)
    ensures !r.expanded ==> r.links == files[env.hash(sourceId)] && r.files == files
    ensures r.expanded ==> r.links == NameLinks(env.expand(sourceId), env)
    ensures r.files == if r.expanded then files[env.hash(sourceId) := r.links] else files
  {
    var key := env.hash(sourceId);
    if key in files && loadVideoList then Resolution(files[key], files, false)
    else
      var links := NameLinks(env.expand(sourceId), env);
      Resolution(links, files[key := links], true)
  }

  /**
   * Write then read: resolving a playlist and then resolving it again with
   * reuse on gives the same list without a second expansion.
   */
  lemma ResolveThenReuse(sourceId: string, files: map<string, seq<NameUrl>>, loadVideoList: bool, env: Env)
    ensures var first := Resolve(sourceId, files, loadVideoList, env);
            var second := Resolve(sourceId, first.files, true, env);
            second.links == first.links && second.files == first.files && !second.expanded
  {
  }

  /** With an injective hash, resolving one playlist leaves every other playlist's entry alone. */
  lemma ResolveKeepsOthers(a: string, b: string, files: map<string, seq<NameUrl>>, loadVideoList: bool, env: Env)
    requires forall x, y :: env.hash(x) == env.hash(y) ==> x == y
    requires a != b && env.hash(b) in files
    ensures var r := Resolve(a, files, loadVideoList, env);
            env.hash(b) in r.files && r.files[env.hash(b)] == files[env.hash(b)]
  {
  }

  /** The subtitle languages a video reports, in key order; none when the info or its `subtitles` is absent. */
  function SubtitleLanguages(info: Option<SubtitleInfo>): seq<string>
  {
    if info.Some? && info.value.subtitles.Some? then info.value.subtitles.value else []
  }

  /** One subtitle descriptor per language, each carrying the video id. */
  function SubtitleEntries(id: string, languages: seq<string>): (r: seq<FileRecord>)
    ensures |r| == |languages|
    ensures forall i :: 0 <= i < |r| ==> r[i] == SubtitleFile(id, languages[i])
    decreases |languages|
  {
    if languages == [] then []
    else SubtitleEntries(id, languages[..|languages| - 1]) + [SubtitleFile(id, languages[|languages| - 1])]
  }

  /** What `subtitles_dict` returns for the reported info. */
  function SubtitleFiles(info: Option<SubtitleInfo>): seq<FileRecord>
  {
    if info.Some? && info.value.subtitles.Some? then SubtitleEntries(info.value.id, info.value.subtitles.value)
    else []
  }

  /** `YouTubeResourceNode.to_dict` on the node's state. */
  function VideoDict(sourceId: string, name: Option<string>, filepath: Option<string>,
                     lang: string, info: Option<SubtitleInfo>): Option<Record>
  {
    if filepath.None? then None
    else Some(Video(sourceId, name, Some(""), AUTHOR, [VideoFile(filepath.value)] + SubtitleFiles(info), lang, LICENSE))
  }

  /**
   * A video renders to nothing until a file path is known; then to a video
   * record whose files are the video file followed by one subtitle
   * descriptor per reported language, in order, each with the video id.
   */
  lemma VideoDictShape(sourceId: string, name: Option<string>, filepath: Option<string>,
                       lang: string, info: Option<SubtitleInfo>)
    ensures var r := VideoDict(sourceId, name, filepath, lang, info);
            && (r.None? <==> filepath.None?)
            && (r.Some? ==> r.value.Video? && r.value.sourceId == sourceId
                            && r.value.title == name && r.value.language == lang)
            && (r.Some? ==> |r.value.files| == 1 + |SubtitleLanguages(info)|
                            && r.value.files[0] == VideoFile(filepath.value))
            && (r.Some? ==> forall j :: 1 <= j < |r.value.files| ==>
                              r.value.files[j] == SubtitleFile(info.value.id, SubtitleLanguages(info)[j - 1]))
  {
    var subs := SubtitleFiles(info);
    assert |subs| == |SubtitleLanguages(info)|;
    if filepath.Some? {
      var files := [VideoFile(filepath.value)] + subs;
      assert files[1..] == subs;
    }
  }

  /** The directory of cached playlist lists: file name (the hash) to stored list. */
  class VideoListStore {
    var files: map<string, seq<NameUrl>>
    /** The playlists expanded so far, in order: what reuse saves. */
    ghost var expansions: seq<string>

    constructor(files: map<string, seq<NameUrl>>)
      ensures this.files == files && expansions == []
    {
      this.files := files;
      expansions := [];
    }
  }

  class YouTubeResourceNode {
    const sourceId: string
    const lang: string
    /** The title (the `title` property reads and writes `name`). */
    var name: Option<string>
    var filepath: Option<string>

    /** `YouTubeResourceNode(url, lang=..., embeded=...)`: the id is the normalised url. */
    constructor(url: Url, lang: string, embeded: bool)
      ensures sourceId == if embeded then TransformEmbed(url) else CleanUrl(url)
      ensures this.lang == lang && name == None && filepath == None
    {
      sourceId := if embeded then TransformEmbed(url) else CleanUrl(url);
      this.lang := lang;
      name := None;
      filepath := None;
    }

    /** `download`: the file path and the title come from the fetch. */
    method Download(env: Env)
      modifies this
      ensures filepath == env.fetch(sourceId).filename
      ensures name == Some(env.fetch(sourceId).title)
    {
      var info := env.fetch(sourceId);
      filepath := info.filename;
      name := Some(info.title);
    }

    /** `subtitles_dict`: one descriptor per reported subtitle language, in key order. */
    method SubtitlesDict(env: Env) returns (subs: seq<FileRecord>)
      ensures subs == SubtitleFiles(env.subtitles(sourceId))
    {
      subs := [];
      var videoInfo := env.subtitles(sourceId);
      if videoInfo.Some? {
        var videoId := videoInfo.value.id;
        if videoInfo.value.subtitles.Some? {
          var languages := videoInfo.value.subtitles.value;
          for i := 0 to |languages|
            invariant subs == SubtitleEntries(videoId, languages[..i])
          {
            assert languages[..i + 1][..i] == languages[..i];
            subs := subs + [SubtitleFile(videoId, languages[i])];
          }
          assert languages[..|languages|] == languages;
        }
      }
    }

    /** `to_dict`: `None` exactly while no file path is known. */
    function ToDict(env: Env): (r: Option<Record>)
      reads this
      ensures r.None? <==> filepath.None?
      ensures r == VideoDict(sourceId, name, filepath, lang, env.subtitles(sourceId))
    {
      VideoDict(sourceId, name, filepath, lang, env.subtitles(sourceId))
    }

    /**
     * `playlist_name_links`: resolve this playlist through the store; a
     * stored list is reused only when reuse is on, and every expansion is
     * written back under the hash of the id.
     */
    method PlaylistNameLinks(store: VideoListStore, loadVideoList: bool, env: Env) returns (nameUrl: seq<NameUrl>)
      modifies store
      ensures var res := Resolve(sourceId, old(store.files), loadVideoList, env);
              nameUrl == res.links && store.files == res.files
              && store.expansions == old(store.expansions) + (if res.expanded then [sourceId] else [])
    {
      var key := env.hash(sourceId);
      if key in store.files && loadVideoList {
        nameUrl := store.files[key];
      } else {
        var links := env.expand(sourceId);
        store.expansions := store.expansions + [sourceId];
        nameUrl := TitleLinks(links, env);
        store.files := store.files[key := nameUrl];
      }
    }
  }

  /** The loop of `playlist_name_links` that pairs each entry url with the title of its cleaned form. */
  method TitleLinks(links: seq<Url>, env: Env) returns (nameUrl: seq<NameUrl>)
    ensures nameUrl == NameLinks(links, env)
  {
    nameUrl := [];
    for i := 0 to |links|
      invariant nameUrl == NameLinks(links[..i], env)
    {
      assert links[..i + 1][..i] == links[..i];
      nameUrl := nameUrl + [TitledLink(links[i], env)];
    }
    assert links[..|links|] == links;
  }

  /**
   * Resolving the same playlist twice, the first time with reuse off and the
   * second with it on, expands it exactly once.
   */
  method ResolveTwice(node: YouTubeResourceNode, store: VideoListStore, env: Env)
    returns (first: seq<NameUrl>, second: seq<NameUrl>)
    modifies store
    ensures second == first
    ensures store.expansions == old(store.expansions) + [node.sourceId]
  {
    first := node.PlaylistNameLinks(store, false, env);
    second := node.PlaylistNameLinks(store, true, env);
  }
}
