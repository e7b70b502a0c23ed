/**
 * Hash routing of the portfolio site: which hashes need the blog's scripts
 * (`needsBlogScripts`) and which page a hash shows (`processHashChange`).
 * The post list is a parameter of every operation; `BlogPosts` is the
 * site's own list.
 */
module Router {
  import opened Wrappers
  import opened JsStrings

  /** An entry of the post list; routing looks only at the id. */
  datatype BlogPost = BlogPost(id: string, title: string, file: string)

  const BlogPosts: seq<BlogPost> := [
    BlogPost("getting-started-with-react-hooks", "Getting Started with React Hooks",
             "posts/getting-started-with-react-hooks.md"),
    BlogPost("python-async-best-practices", "Python Async Programming Best Practices",
             "posts/python-async-best-practices.md"),
    BlogPost("building-scalable-apis", "Building Scalable APIs with FastAPI",
             "posts/building-scalable-apis.md")
  ]

  /** The page a route shows: a top-level section, or one post. */
  datatype Page = Section(name: string) | Post(id: string)

  /** The sections a hash may name directly. */
  const SectionNames: set<string> := {"blog", "about", "contact"}

  predicate IsPostId(posts: seq<BlogPost>, id: string) {
    exists p :: p in posts && p.id == id
  }

  /** `posts.find(p => p.id === id)`: the first post with that id, if any. */
  function FindPost(posts: seq<BlogPost>, id: string): (r: Option<BlogPost>)
    ensures r.Some? ==> r.value in posts && r.value.id == id
    ensures r.None? ==> forall p :: p in posts ==> p.id != id
  {
    if posts == [] then None
    else if posts[0].id == id then Some(posts[0])
    else FindPost(posts[1..], id)
  }

  lemma FindPostIff(posts: seq<BlogPost>, id: string)
    ensures FindPost(posts, id).Some? <==> IsPostId(posts, id)
  {
  }

  /** `needsBlogScripts`: whether the Markdown and highlighting scripts must be loaded first. */
  function NeedsBlogScripts(posts: seq<BlogPost>, hash: string): bool
  {
    if hash == "" then false
    else if hash == "blog" then true
    else if StartsWith(hash, "blog/") then true
    else FindPost(posts, hash).Some?
  }

  /** `processHashChange`: the page a hash (without its `#`) shows. */
  function ProcessHashChange(posts: seq<BlogPost>, hash: string): Page
  {
    if hash != "" then
      if StartsWith(hash, "blog/") then
        var postId := Substring(hash, 5);
        if FindPost(posts, postId).Some? then Post(postId) else Section("blog")
      else if hash == "blog" || hash == "about" || hash == "contact" then Section(hash)
      else if FindPost(posts, hash).Some? then Post(hash)
      else Section("about")
    else Section("about")
  }

  /** The pages that belong to the blog: its list and its posts. */
  predicate IsBlogPage(page: Page) {
    page.Post? || page == Section("blog")
  }

  /** What a hash change does: whether it loads the blog scripts first, and the page it then shows. */
  datatype HashChange = HashChange(loadsScripts: bool, page: Page)

  /**
   * `handleHashChange`: loads the blog scripts when they are needed and
   * routes once that settles; a failed load routes the same way as a
   * successful one, so the outcome of the load is not a parameter.
   */
  function HandleHashChange(posts: seq<BlogPost>, hash: string): (r: HashChange)
    ensures r.loadsScripts ==> hash != ""
    ensures IsBlogPage(r.page) ==> r.loadsScripts
  {
    ScriptsExactlyForBlogPages(posts, hash);
    HashChange(NeedsBlogScripts(posts, hash), ProcessHashChange(posts, hash))
  }

  // ----- properties ---------------------------------------------------------------

  /** An empty hash needs no scripts; otherwise they are needed for the blog, its paths and its post ids. */
  lemma NeedsBlogScriptsIff(posts: seq<BlogPost>, hash: string)
    ensures !NeedsBlogScripts(posts, "")
    ensures NeedsBlogScripts(posts, hash) <==>
      hash != "" && (hash == "blog" || StartsWith(hash, "blog/") || IsPostId(posts, hash))
  {
    FindPostIff(posts, hash);
  }

  /** With no hash, or one that names nothing known, the about section shows. */
  lemma UnknownHashShowsAbout(posts: seq<BlogPost>, hash: string)
    requires hash == "" || (!StartsWith(hash, "blog/") && hash !in SectionNames && !IsPostId(posts, hash))
    ensures ProcessHashChange(posts, hash) == Section("about")
  {
    FindPostIff(posts, hash);
  }

  /** `blog/<id>` shows that post when it exists and the blog list otherwise. */
  lemma BlogPathRoute(posts: seq<BlogPost>, id: string)
    ensures ProcessHashChange(posts, "blog/" + id) ==
      if IsPostId(posts, id) then Post(id) else Section("blog")
  {
    var hash := "blog/" + id;
    assert StartsWith(hash, "blog/") && hash[5..] == id;
    FindPostIff(posts, id);
  }

  /** The three section names show their own section. */
  lemma SectionRoute(posts: seq<BlogPost>, name: string)
    requires name in SectionNames
    ensures ProcessHashChange(posts, name) == Section(name)
  {
    assert name == "blog" || name == "about" || name == "contact";
    if name == "about" {
      assert name[..5] == "about";
    } else if name == "contact" {
      assert name[..5] == "conta";
    }
  }

  /** A bare post id shows that post, unless it is a section name or begins with `blog/`. */
  lemma BarePostIdRoute(posts: seq<BlogPost>, id: string)
    requires IsPostId(posts, id) && id != "" && id !in SectionNames && !StartsWith(id, "blog/")
    ensures ProcessHashChange(posts, id) == Post(id)
  {
    FindPostIff(posts, id);
  }

  /** Every route ends at one of the three sections or at a post of the list. */
  lemma RouteTargetsExist(posts: seq<BlogPost>, hash: string)
    ensures match ProcessHashChange(posts, hash)
      case Section(name) => name in SectionNames
      case Post(id) => IsPostId(posts, id)
  {
    if hash != "" && StartsWith(hash, "blog/") {
      FindPostIff(posts, Substring(hash, 5));
    } else if hash != "" {
      FindPostIff(posts, hash);
    }
  }

  /**
   * The scripts are loaded for every hash that ends on a blog page, and,
   * as long as no post id is `about` or `contact`, only for those.
   */
  lemma ScriptsExactlyForBlogPages(posts: seq<BlogPost>, hash: string)
    ensures IsBlogPage(ProcessHashChange(posts, hash)) ==> NeedsBlogScripts(posts, hash)
    ensures (forall p :: p in posts ==> p.id != "about" && p.id != "contact") ==>
      (NeedsBlogScripts(posts, hash) ==> IsBlogPage(ProcessHashChange(posts, hash)))
  {
    if hash != "" && !StartsWith(hash, "blog/") && hash != "blog" {
      FindPostIff(posts, hash);
    }
  }

  /** The hash `loadPost` writes for a post, `blog/<id>`, leads back to that post. */
  lemma PostHashRoundTrip(posts: seq<BlogPost>, p: BlogPost)
    requires p in posts
    ensures ProcessHashChange(posts, "blog/" + p.id) == Post(p.id)
    ensures NeedsBlogScripts(posts, "blog/" + p.id)
  {
    BlogPathRoute(posts, p.id);
    assert StartsWith("blog/" + p.id, "blog/");
  }

  /** Every post of the site is reached by its bare id as well as by `blog/<id>`. */
  lemma SitePostsRoute(p: BlogPost)
    requires p in BlogPosts
    ensures ProcessHashChange(BlogPosts, p.id) == Post(p.id)
    ensures ProcessHashChange(BlogPosts, "blog/" + p.id) == Post(p.id)
  {
    assert p == BlogPosts[0] || p == BlogPosts[1] || p == BlogPosts[2];
    assert p.id[1] != 'l' && |p.id| > 7;
    assert p.id[..5][1] == p.id[1];
    BarePostIdRoute(BlogPosts, p.id);
    PostHashRoundTrip(BlogPosts, p);
  }
}
