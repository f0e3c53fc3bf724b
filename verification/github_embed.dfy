/** The README mirror of src/components/ui/GithubEmbed.tsx: from a
    repository URL it derives a raw-content URL on the `main` branch, falls
    back to `master` when that request is not ok, and renders the text, an
    error panel, a loading view, or nothing at all. */
module GithubEmbed {
  import opened Wrappers
  import opened JsStrings

  const Host: string := "github.com"
  const RawHost: string := "raw.githubusercontent.com"
  const MainSegment: string := "/main/"
  const MasterSegment: string := "/master/"
  const ReadmeFile: string := "README.md"
  const MainReadme: string := MainSegment + ReadmeFile
  const MasterReadme: string := MasterSegment + ReadmeFile

  /** The answer of one `fetch`: a rejected promise, or a response with its
      `ok` flag and its body text. */
  datatype FetchResponse = NetworkFailure | Response(ok: bool, text: string)

  predicate IsOk(response: FetchResponse) {
    response.Response? && response.ok
  }

  /** The component's three pieces of state. */
  datatype EmbedState = EmbedState(readme: string, isLoading: bool, error: bool)

  /** What one run of the effect leaves: the new state and the URLs it
      requested, in order. */
  datatype LoadOutcome = LoadOutcome(state: EmbedState, requested: seq<string>)

  /** What the component renders. */
  datatype View = Nothing | LoadingView | ErrorPanel(link: string) | Markdown(source: string)

  /** The state before the effect has run. */
  const InitialState: EmbedState := EmbedState("", true, false)

  /** The URL with its first "github.com" turned into the raw-content host. */
  function RawBase(url: string): string {
    ReplaceFirst(url, Host, RawHost)
  }

  /** The URL of the first request: the raw base followed by
      "/main/README.md". */
  function PrimaryUrl(url: string): (r: string)
    ensures EndsWith(r, MainReadme)
    ensures !Contains(url, Host) ==> r == url + MainReadme
  {
    var r := RawBase(url) + MainReadme;
    EndsWithConcat(RawBase(url), MainReadme);
    r
  }

  /** The URL of the second request: the first URL with its first "/main/"
      turned into "/master/". */
  function FallbackUrl(primary: string): (r: string)
    ensures IndexOf(primary, MainSegment).None? ==> r == primary
    ensures IndexOf(primary, MainSegment).Some? ==>
              var i := IndexOf(primary, MainSegment).value;
              |r| == |primary| + 2
              && r[..i] == primary[..i]
              && r[i..i + |MasterSegment|] == MasterSegment
              && r[i + |MasterSegment|..] == primary[i + |MainSegment|..]
  {
    var r := ReplaceFirst(primary, MainSegment, MasterSegment);
    if IndexOf(primary, MainSegment).Some? then
      var i := IndexOf(primary, MainSegment).value;
      assert r[..i] == primary[..i];
      assert r[i..i + |MasterSegment|] == MasterSegment;
      assert r[i + |MasterSegment|..] == primary[i + |MainSegment|..];
      r
    else r
  }

  /** The primary URL rewrites only the first "github.com" of the URL, and
      keeps everything else. */
  lemma PrimaryUrlRewritesFirstHost(url: string)
    ensures !Contains(url, Host) ==> PrimaryUrl(url) == url + MainReadme
    ensures Contains(url, Host) ==>
              exists i: nat :: MatchAt(url, Host, i)
                && (forall j: nat :: j < i ==> !MatchAt(url, Host, j))
                && PrimaryUrl(url) == url[..i] + RawHost + url[i + |Host|..] + MainReadme
  {
    if Contains(url, Host) {
      var i := IndexOf(url, Host).value;
      assert PrimaryUrl(url) == url[..i] + RawHost + url[i + |Host|..] + MainReadme;
    }
  }

  /** A "/main/" straddling the join of `base` and "/main/README.md" can
      only start five characters before the join, under a base ending in
      "/main". */
  lemma StraddlingMainSegment(base: string, j: nat)
    requires |base| - 6 < j < |base|
    ensures MatchAt(base + MainReadme, MainSegment, j) ==> j == |base| - 5 && EndsWith(base, "/main")
  {
    var p := base + MainReadme;
    var m := |base| - j;
    assert p[|base|] == '/';
    assert MatchAt(p, MainSegment, j) ==> p[j..j + 6][m] == MainSegment[m];
    assert MatchAt(p, MainSegment, j) ==> m == 5;
    if m == 5 {
      assert p[j..j + 5] == base[j..];
      assert MatchAt(p, MainSegment, j) ==> p[j..j + 5] == MainSegment[..5];
    }
  }

  /** Where the first "/main/" of `base + "/main/README.md"` lies: inside
      `base` if `base` has one; straddling the join if `base` ends in
      "/main"; otherwise at the start of the appended suffix. */
  lemma FirstMainSegment(base: string)
    ensures Contains(base, MainSegment) ==>
              IndexOf(base + MainReadme, MainSegment) == IndexOf(base, MainSegment)
    ensures !Contains(base, MainSegment) && EndsWith(base, "/main") ==>
              IndexOf(base + MainReadme, MainSegment) == Some(|base| - 5)
    ensures !Contains(base, MainSegment) && !EndsWith(base, "/main") ==>
              IndexOf(base + MainReadme, MainSegment) == Some(|base|)
  {
    var p := base + MainReadme;
    if Contains(base, MainSegment) {
      var i := IndexOf(base, MainSegment).value;
      MatchInsidePrefix(base, MainReadme, MainSegment, i);
      forall j: nat | j < i ensures !MatchAt(p, MainSegment, j) {
        MatchInsidePrefix(base, MainReadme, MainSegment, j);
      }
      IndexOfIsLeastMatch(p, MainSegment, i);
    } else {
      // No match lies wholly inside `base`.
      forall j: nat | j + 6 <= |base| ensures !MatchAt(p, MainSegment, j) {
        MatchInsidePrefix(base, MainReadme, MainSegment, j);
      }
      if EndsWith(base, "/main") {
        var k := |base| - 5;
        assert p[k..k + 6] == base[k..] + "/";
        IndexOfIsLeastMatch(p, MainSegment, k);
      } else {
        assert p[|base|..|base| + 6] == MainSegment;
        forall j: nat | |base| - 6 < j < |base| ensures !MatchAt(p, MainSegment, j) {
          StraddlingMainSegment(base, j);
        }
        IndexOfIsLeastMatch(p, MainSegment, |base|);
      }
    }
  }

  /** Two suffixes of one string: the shorter is a suffix of the longer. */
  lemma SuffixOfSuffix(s: string, a: string, b: string)
    requires EndsWith(s, a) && |a| <= |b|
    ensures EndsWith(s, b) ==> EndsWith(b, a)
  {
    if EndsWith(s, b) {
      assert b[|b| - |a|..] == s[|s| - |b|..][|b| - |a|..];
    }
  }

  /** Once the first "/main/" of a URL is known, so is its fallback. */
  lemma FallbackAt(p: string, i: nat)
    requires IndexOf(p, MainSegment) == Some(i)
    ensures i + |MainSegment| <= |p|
    ensures FallbackUrl(p) == p[..i] + MasterSegment + p[i + |MainSegment|..]
  {
  }

  /** No URL ends in both "/main/README.md" and "/master/README.md". */
  lemma MainReadmeExcludesMaster(f: string)
    requires EndsWith(f, MainReadme)
    ensures !EndsWith(f, MasterReadme)
  {
    SuffixOfSuffix(f, MainReadme, MasterReadme);
    assert MasterReadme[2] != MainReadme[0];
  }

  /** With a "/main/" inside the base, that one is rewritten and the
      fallback still ends in "/main/README.md". */
  lemma FallbackWithEarlierMain(base: string)
    requires Contains(base, MainSegment)
    ensures EndsWith(FallbackUrl(base + MainReadme), MainReadme)
    ensures !EndsWith(FallbackUrl(base + MainReadme), MasterReadme)
  {
    FirstMainSegment(base);
    FallbackInBase(base, IndexOf(base, MainSegment).value);
    MainReadmeExcludesMaster(FallbackUrl(base + MainReadme));
  }

  /** When the first "/main/" lies wholly inside the base, the appended
      "/main/README.md" survives the rewrite. */
  lemma FallbackInBase(base: string, i: nat)
    requires IndexOf(base + MainReadme, MainSegment) == Some(i)
    requires i + |MainSegment| <= |base|
    ensures EndsWith(FallbackUrl(base + MainReadme), MainReadme)
  {
    var p := base + MainReadme;
    var head := base[..i] + MasterSegment + base[i + |MainSegment|..];
    assert p[..i] == base[..i];
    assert p[i + |MainSegment|..] == base[i + |MainSegment|..] + MainReadme;
    FallbackAt(p, i);
    assert FallbackUrl(p) == head + MainReadme;
    EndsWithConcat(head, MainReadme);
  }

  /** No URL ends in both "main/README.md" and "/master/README.md". */
  lemma MainTailExcludesMaster(f: string)
    requires EndsWith(f, MainReadme[1..])
    ensures !EndsWith(f, MasterReadme)
  {
    SuffixOfSuffix(f, MainReadme[1..], MasterReadme);
    assert MasterReadme[3] != MainReadme[1];
  }

  /** With a base ending in "/main", the "/main/" straddling the join is
      rewritten: the fallback is the base without its "/main", then
      "/master/", then "main/README.md". */
  lemma FallbackWithTrailingMain(base: string)
    requires !Contains(base, MainSegment) && EndsWith(base, "/main")
    ensures FallbackUrl(base + MainReadme) == base[..|base| - 5] + MasterSegment + MainReadme[1..]
    ensures !EndsWith(FallbackUrl(base + MainReadme), MasterReadme)
  {
    var p := base + MainReadme;
    FirstMainSegment(base);
    var k := |base| - 5;
    var head := base[..k] + MasterSegment;
    FallbackAt(p, k);
    assert p[..k] == base[..k];
    assert p[k + 6..] == MainReadme[1..];
    assert FallbackUrl(p) == head + MainReadme[1..];
    EndsWithConcat(head, MainReadme[1..]);
    MainTailExcludesMaster(FallbackUrl(p));
  }

  /** Otherwise the appended "/main/" is the one rewritten. */
  lemma FallbackWithoutMain(base: string)
    requires !Contains(base, MainSegment) && !EndsWith(base, "/main")
    ensures FallbackUrl(base + MainReadme) == base + MasterReadme
  {
    FirstMainSegment(base);
    FallbackAtJoin(base);
  }

  /** When the appended "/main/" is the first one, it becomes "/master/". */
  lemma FallbackAtJoin(base: string)
    requires IndexOf(base + MainReadme, MainSegment) == Some(|base|)
    ensures FallbackUrl(base + MainReadme) == base + MasterReadme
  {
    var p := base + MainReadme;
    FallbackAt(p, |base|);
    assert p[..|base|] == base;
    assert p[|base| + |MainSegment|..] == ReadmeFile;
    assert base + MasterSegment + ReadmeFile == base + MasterReadme;
  }

  /** The fallback URL ends in "/master/README.md" exactly when the raw base
      holds no "/main/" and does not end in "/main". */
  lemma FallbackUrlShape(url: string)
    ensures var base := RawBase(url);
            EndsWith(FallbackUrl(PrimaryUrl(url)), MasterReadme) <==>
              !Contains(base, MainSegment) && !EndsWith(base, "/main")
  {
    var base := RawBase(url);
    if Contains(base, MainSegment) {
      FallbackWithEarlierMain(base);
    } else if EndsWith(base, "/main") {
      FallbackWithTrailingMain(base);
    } else {
      FallbackWithoutMain(base);
      EndsWithConcat(base, MasterReadme);
    }
  }

  /** The first step of a run for a truthy URL (line 27): only the loading
      flag changes, so the previous text and error flag stay until the run
      settles. */
  function BeginLoad(st: EmbedState): (r: EmbedState)
    ensures r.isLoading
    ensures r.readme == st.readme && r.error == st.error
  {
    st.(isLoading := true)
  }

  /** Whatever the mirror showed before, a new run for a truthy URL shows
      the loading view until it settles. */
  lemma ReloadShowsLoading(url: Option<string>, st: EmbedState)
    requires IsTruthy(url)
    ensures Render(url, BeginLoad(st)) == LoadingView
  {
  }

  /** The effect that runs when `url` changes (lines 23-54). `fetch` is the
      network: it maps a requested URL to its response. */
  function LoadReadme(url: Option<string>, st: EmbedState, fetch: string -> FetchResponse): (r: LoadOutcome)
    ensures !IsTruthy(url) ==> r.state == st && r.requested == []
    ensures IsTruthy(url) ==> !r.state.isLoading
    ensures IsTruthy(url) ==> 1 <= |r.requested| <= 2 && r.requested[0] == PrimaryUrl(url.value)
    ensures |r.requested| == 2 <==>
              IsTruthy(url) && fetch(PrimaryUrl(url.value)).Response? && !fetch(PrimaryUrl(url.value)).ok
    ensures |r.requested| == 2 ==> r.requested[1] == FallbackUrl(r.requested[0])
    ensures IsTruthy(url) ==>
              (r.state.error <==> !IsOk(fetch(r.requested[|r.requested| - 1])))
    ensures IsTruthy(url) && !r.state.error ==>
              r.state.readme == fetch(r.requested[|r.requested| - 1]).text
    ensures r.state.error ==> r.state.readme == st.readme
  {
    if !IsTruthy(url) then LoadOutcome(st, [])
    else
      var loading := BeginLoad(st);
      var primary := PrimaryUrl(url.value);
      var failed := loading.(isLoading := false, error := true);
      match fetch(primary)
      case NetworkFailure => LoadOutcome(failed, [primary])
      case Response(ok, text) =>
        if ok then LoadOutcome(EmbedState(text, false, false), [primary])
        else
          var alt := FallbackUrl(primary);
          match fetch(alt)
          case NetworkFailure => LoadOutcome(failed, [primary, alt])
          case Response(altOk, altText) =>
            if altOk then LoadOutcome(EmbedState(altText, false, false), [primary, alt])
            else LoadOutcome(failed, [primary, alt])
  }

  /** The component's output for a given URL and state (lines 56-133). */
  function Render(url: Option<string>, st: EmbedState): (v: View)
    ensures v == Nothing <==> !IsTruthy(url)
    ensures v.ErrorPanel? ==> v.link == url.value && st.error && !st.isLoading
    ensures v.Markdown? ==> v.source == st.readme && !st.error && !st.isLoading
    ensures v == LoadingView <==> IsTruthy(url) && st.isLoading
  {
    if !IsTruthy(url) then Nothing
    else if st.isLoading then LoadingView
    else if st.error then ErrorPanel(url.value)
    else Markdown(st.readme)
  }

  /** From the initial state, the mirror settles on the primary text when
      that request is ok, on the fallback text when only that one is ok, and
      on the error panel linking to the repository otherwise. */
  lemma MirrorOutcome(url: string, fetch: string -> FetchResponse)
    requires url != ""
    ensures var primary := PrimaryUrl(url);
            var v := Render(Some(url), LoadReadme(Some(url), InitialState, fetch).state);
            if IsOk(fetch(primary)) then v == Markdown(fetch(primary).text)
            else if fetch(primary).Response? && IsOk(fetch(FallbackUrl(primary)))
            then v == Markdown(fetch(FallbackUrl(primary)).text)
            else v == ErrorPanel(url)
  {
  }

  /** Without a URL nothing is requested and nothing is rendered, whatever
      the state. */
  lemma NoUrlNoMirror(url: Option<string>, st: EmbedState, fetch: string -> FetchResponse)
    requires url == None || url == Some("")
    ensures LoadReadme(url, st, fetch).requested == []
    ensures Render(url, LoadReadme(url, st, fetch).state) == Nothing
  {
  }
}
