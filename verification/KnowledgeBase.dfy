/** The knowledge base page: a list of articles, or the article picked
    from it or handed over by another page. */
module KnowledgeBase {
  import opened Wrappers
  import opened Domain
  import Dashboard
  import FarmerView

  /** `findArticleById`: no id (or an empty one) finds nothing; otherwise
      the first article with that id, if there is one. */
  function FindArticleById(articles: seq<Article>, id: Option<string>): (r: Option<Article>)
    ensures id.None? || id == Some("") ==> r.None?
    ensures r.Some? ==> r.value in articles && Some(r.value.id) == id
    ensures r.None? && id.Some? && id.value != "" ==> forall a :: a in articles ==> a.id != id.value
  {
    if id.None? || id.value == "" then None else Find(articles, id.value)
  }

  /** The first article with id `id`. */
  function Find(articles: seq<Article>, id: string): (r: Option<Article>)
    ensures r.Some? ==> r.value in articles && r.value.id == id
    ensures r.None? ==> forall a :: a in articles ==> a.id != id
  {
    if |articles| == 0 then None
    else if articles[0].id == id then Some(articles[0])
    else
      assert forall a :: a in articles ==> a == articles[0] || a in articles[1..];
      Find(articles[1..], id)
  }

  /** The article found is the first with its id: no article before it has it. */
  lemma {:induction false} FindFirst(articles: seq<Article>, id: string)
    requires Find(articles, id).Some?
    ensures exists k :: (0 <= k < |articles| && articles[k] == Find(articles, id).value
                         && forall j :: 0 <= j < k ==> articles[j].id != id)
  {
    if articles[0].id == id {
      assert articles[0] == Find(articles, id).value;
    } else {
      FindFirst(articles[1..], id);
      var k :| 0 <= k < |articles[1..]| && articles[1..][k] == Find(articles[1..], id).value
        && forall j :: 0 <= j < k ==> articles[1..][j].id != id;
      assert articles[k + 1] == Find(articles, id).value;
      forall j | 0 <= j < k + 1
        ensures articles[j].id != id
      {
        if j > 0 {
          assert articles[j] == articles[1..][j - 1];
        }
      }
    }
  }

  /** The articles the page receives: the published ones. */
  function PageArticles(articles: seq<Article>): (r: seq<Article>)
    ensures forall a :: a in r <==> a in articles && a.status == Published
  {
    Dashboard.FilteredArticles(articles, Dashboard.AllFilter)
  }

  datatype KnowledgeState = KnowledgeState(selected: Option<Article>)

  /** The selection derived from the page's inputs, both when the page
      opens and whenever the handed-over id or the articles change. */
  function Derive(articles: seq<Article>, initialId: Option<string>): (s: KnowledgeState)
    ensures s.selected == FindArticleById(articles, initialId)
  {
    KnowledgeState(FindArticleById(articles, initialId))
  }

  /** Clicking an article of the list shows it. */
  function SelectFromList(s: KnowledgeState, a: Article): (t: KnowledgeState)
    ensures t.selected == Some(a)
  {
    KnowledgeState(Some(a))
  }

  /** `handleGoBack`: the list is shown again, and the parent is told to
      forget its id when it gave a callback. */
  function GoBack(s: KnowledgeState, hasCallback: bool): (r: (KnowledgeState, bool))
    ensures r.0.selected.None?
    ensures r.1 <==> hasCallback
  {
    (KnowledgeState(None), hasCallback)
  }

  /** When the farmer area holds an article id, as `handleSelectArticle`
      would leave it, the knowledge page shows that article if it is
      published, and nothing when no published article has that id. The
      program passes that handler to no page, so in the program the id is
      always null and the page opens on its list. */
  lemma OpenedById(area: FarmerView.FarmerState, articles: seq<Article>, id: string)
    requires id != ""
    ensures var s := Derive(PageArticles(articles), FarmerView.SelectArticle(area, id).selectedArticleId);
      && (s.selected.Some? ==> s.selected.value.id == id && s.selected.value.status == Published
                               && s.selected.value in articles)
      && (s.selected.None? ==> forall a :: a in articles && a.id == id ==> a.status != Published)
  {
  }

  /** Going back from an article in the farmer area clears the area's id,
      so deriving the selection again keeps the list shown; navigating
      away has the same effect. */
  lemma GoBackStaysOnList(area: FarmerView.FarmerState, articles: seq<Article>, s: KnowledgeState,
                          page: FarmerView.Page)
    ensures var r := GoBack(s, true);
      var cleared := if r.1 then area.(selectedArticleId := None) else area;
      Derive(PageArticles(articles), cleared.selectedArticleId).selected.None?
    ensures Derive(PageArticles(articles), FarmerView.NavClick(area, page).selectedArticleId).selected.None?
  {
  }
}
