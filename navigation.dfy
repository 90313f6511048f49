/**
 * Page navigation: the currentPage state of src/App.js with navigateToPage and
 * renderCurrentPage, the link handler of src/components/Footer.js and the back
 * buttons of the two legal pages (PrivacyPolicy.js, TermsOfService.js).
 *
 * App keeps the page as a free string, exactly as the source does; Page is the
 * closed set that renderCurrentPage's switch distinguishes.  window.scrollTo is
 * recorded as a log of the points scrolled to.
 */
module Navigation {
  import Dom

  datatype Page = Home | Privacy | Terms

  /** The identifier each page is requested by. */
  function Name(p: Page): string {
    match p
    case Home => "home"
    case Privacy => "privacy"
    case Terms => "terms"
  }

  /** The switch of renderCurrentPage: 'privacy', 'terms', and everything else. */
  function PageOf(currentPage: string): Page {
    if currentPage == "privacy" then Privacy
    else if currentPage == "terms" then Terms
    else Home
  }

  /** The page shown for a name is the page of that name; the names are distinct. */
  lemma PageOfName(p: Page)
    ensures PageOf(Name(p)) == p
  {
  }

  /** Any string that is not the name of a legal page falls back to home. */
  lemma PageOfFallsBackToHome(s: string)
    ensures PageOf(s) == Home <==> (s != Name(Privacy) && s != Name(Terms))
    ensures PageOf(s) != Home ==> Name(PageOf(s)) == s
  {
  }

  datatype Section = Hero | Features | Collections | AppPreview | Download | Footer

  /** The home content, top to bottom. */
  const HomeSections: seq<Section> := [Hero, Features, Collections, AppPreview, Download, Footer]

  datatype View = PrivacyPolicyView | TermsOfServiceView | HomeView(sections: seq<Section>)

  function RenderCurrentPage(currentPage: string): (v: View)
    ensures v.PrivacyPolicyView? <==> currentPage == "privacy"
    ensures v.TermsOfServiceView? <==> currentPage == "terms"
    ensures v.HomeView? <==> PageOf(currentPage) == Home
    ensures v.HomeView? ==> v.sections == HomeSections && |v.sections| == 6
  {
    match PageOf(currentPage)
    case Privacy => PrivacyPolicyView
    case Terms => TermsOfServiceView
    case Home => HomeView(HomeSections)
  }

  datatype Point = Point(x: int, y: int)

  const Origin := Point(0, 0)

  /** App's state: the current page and each window.scrollTo call so far. */
  datatype AppState = AppState(currentPage: string, scrolls: seq<Point>)

  const Initial := AppState("home", [])

  /** navigateToPage: no check on the page; one scroll to the origin per call. */
  function Navigate(s: AppState, page: string): AppState {
    AppState(page, s.scrolls + [Origin])
  }

  function NavigateAll(s: AppState, pages: seq<string>): AppState
    decreases |pages|
  {
    if pages == [] then s else NavigateAll(Navigate(s, pages[0]), pages[1..])
  }

  /** The initial page is home, and it renders the home content. */
  lemma InitialIsHome()
    ensures PageOf(Initial.currentPage) == Home
    ensures RenderCurrentPage(Initial.currentPage) == HomeView(HomeSections)
    ensures Initial.scrolls == []
  {
  }

  /** Navigating twice to the same page leaves the page navigation once leaves,
      and scrolls twice. */
  lemma NavigateTwice(s: AppState, page: string)
    ensures Navigate(Navigate(s, page), page).currentPage == Navigate(s, page).currentPage == page
    ensures Navigate(Navigate(s, page), page).scrolls == s.scrolls + [Origin, Origin]
  {
  }

  /** After any sequence of requests, the page is the last one requested (or the
      old one when there was none) and exactly one scroll to the origin was made
      per request. */
  lemma {:induction false} NavigateAllEffect(s: AppState, pages: seq<string>)
    ensures NavigateAll(s, pages).currentPage == if pages == [] then s.currentPage else pages[|pages| - 1]
    ensures |NavigateAll(s, pages).scrolls| == |s.scrolls| + |pages|
    ensures NavigateAll(s, pages).scrolls[..|s.scrolls|] == s.scrolls
    ensures forall i | |s.scrolls| <= i < |NavigateAll(s, pages).scrolls| :: NavigateAll(s, pages).scrolls[i] == Origin
    decreases |pages|
  {
    if pages != [] {
      var t := Navigate(s, pages[0]);
      NavigateAllEffect(t, pages[1..]);
      assert t.scrolls[..|s.scrolls|] == s.scrolls;
    }
  }

  /** What the shipped components request: the footer's two links and the
      legal pages' back buttons. */
  datatype Request = PrivacyLink | TermsLink | BackButton

  function Target(r: Request): string {
    match r
    case PrivacyLink => "privacy"
    case TermsLink => "terms"
    case BackButton => "home"
  }

  function Requested(rs: seq<Request>): (pages: seq<string>)
    ensures |pages| == |rs|
    ensures forall i | 0 <= i < |rs| :: pages[i] == Target(rs[i])
  {
    if rs == [] then [] else [Target(rs[0])] + Requested(rs[1..])
  }

  /** Through the shipped links and buttons currentPage only ever holds the name
      of one of the three pages, so the fallback to home is not needed by them. */
  lemma RequestsStayNamed(rs: seq<Request>)
    ensures exists p: Page :: NavigateAll(Initial, Requested(rs)).currentPage == Name(p)
  {
    NavigateAllEffect(Initial, Requested(rs));
    if rs == [] {
      assert Initial.currentPage == Name(Home);
    } else {
      var r := rs[|rs| - 1];
      match r
      case PrivacyLink => assert Target(r) == Name(Privacy);
      case TermsLink => assert Target(r) == Name(Terms);
      case BackButton => assert Target(r) == Name(Home);
    }
  }

  /** A visit to the terms page and back: terms is shown, then home, with a
      scroll reset on both transitions. */
  lemma TermsAndBack()
    ensures RenderCurrentPage(Navigate(Initial, "terms").currentPage) == TermsOfServiceView
    ensures RenderCurrentPage(Navigate(Navigate(Initial, "terms"), "home").currentPage) == HomeView(HomeSections)
    ensures Navigate(Navigate(Initial, "terms"), "home").scrolls == [Origin, Origin]
  {
  }

  class App {
    var currentPage: string
    var scrollLog: seq<Point>

    ghost function State(): AppState
      reads this
    {
      AppState(currentPage, scrollLog)
    }

    constructor ()
      ensures State() == Initial
    {
      currentPage := "home";
      scrollLog := [];
    }

    method NavigateToPage(page: string)
      modifies this
      ensures State() == Navigate(old(State()), page)
      ensures currentPage == page
      ensures scrollLog == old(scrollLog) + [Origin]
    {
      currentPage := page;
      scrollLog := scrollLog + [Origin];
    }

    function CurrentView(): View
      reads this
    {
      RenderCurrentPage(currentPage)
    }
  }

  /** The Footer component, whose handleLinkClick serves both legal links.
      onNavigate is the optional callback prop; null stands for an absent one.
      A click with no callback changes nothing beyond the event. */
  class FooterComponent {
    const onNavigate: App?

    constructor (onNavigate: App?)
      ensures this.onNavigate == onNavigate
    {
      this.onNavigate := onNavigate;
    }

    method HandleLinkClick(page: string, e: Dom.Event)
      modifies e, onNavigate
      ensures e.defaultPrevented
      ensures onNavigate != null ==> onNavigate.State() == Navigate(old(onNavigate.State()), page)
    {
      e.PreventDefault();
      if onNavigate != null {
        onNavigate.NavigateToPage(page);
      }
    }

    method ClickPrivacy(e: Dom.Event)
      modifies e, onNavigate
      ensures e.defaultPrevented
      ensures onNavigate != null ==> onNavigate.State() == Navigate(old(onNavigate.State()), Target(PrivacyLink))
    {
      HandleLinkClick("privacy", e);
    }

    method ClickTerms(e: Dom.Event)
      modifies e, onNavigate
      ensures e.defaultPrevented
      ensures onNavigate != null ==> onNavigate.State() == Navigate(old(onNavigate.State()), Target(TermsLink))
    {
      HandleLinkClick("terms", e);
    }
  }

  /** PrivacyPolicy and TermsOfService share the same back button. */
  datatype LegalKind = PrivacyPolicy | TermsOfService

  class LegalPage {
    const kind: LegalKind
    const onNavigate: App?

    constructor (kind: LegalKind, onNavigate: App?)
      ensures this.kind == kind && this.onNavigate == onNavigate
    {
      this.kind := kind;
      this.onNavigate := onNavigate;
    }

    /** onNavigate && onNavigate('home'). */
    method ClickBack()
      modifies onNavigate
      ensures onNavigate != null ==> onNavigate.State() == Navigate(old(onNavigate.State()), Target(BackButton))
    {
      if onNavigate != null {
        onNavigate.NavigateToPage("home");
      }
    }
  }
}
