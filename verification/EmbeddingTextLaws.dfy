/** What the embedded texts say, and what an edit of one field sends to the model. */
module EmbeddingTextLaws {
  import opened EmbeddingText
  import opened EmbeddingStore
  import opened EmbeddingLaws

  // ----- stripping -------------------------------------------------------

  predicate Blank(s: string) { forall c :: c in s ==> IsSpace(c) }

  /** Neither end is white space. */
  predicate Trimmed(s: string) { s != "" ==> !IsSpace(s[0]) && !IsSpace(s[|s| - 1]) }

  lemma {:induction false} StripLeftIs(s: string) returns (i: nat)
    ensures i <= |s| && StripLeft(s) == s[i..] && Blank(s[..i])
    ensures i < |s| ==> !IsSpace(s[i])
  {
    if s != "" && IsSpace(s[0]) {
      var j := StripLeftIs(s[1..]);
      i := j + 1;
      assert s[..i] == [s[0]] + s[1..][..j];
    } else {
      i := 0;
    }
  }

  lemma {:induction false} StripRightIs(s: string) returns (j: nat)
    ensures j <= |s| && StripRight(s) == s[..j] && Blank(s[j..])
    ensures j > 0 ==> !IsSpace(s[j - 1])
  {
    if s != "" && IsSpace(s[|s| - 1]) {
      var n := |s| - 1;
      j := StripRightIs(s[..n]);
      assert s[..n][..j] == s[..j] && s[j..] == s[..n][j..] + [s[n]];
    } else {
      j := |s|;
    }
  }

  /** Stripping takes white space off both ends and nothing else. */
  lemma StripIs(s: string) returns (before: string, after: string)
    ensures s == before + Strip(s) + after && Blank(before) && Blank(after) && Trimmed(Strip(s))
    ensures Strip(s) == "" <==> Blank(s)
  {
    var i := StripLeftIs(s);
    var t := StripLeft(s);
    var j := StripRightIs(t);
    before, after := s[..i], t[j..];
    assert s == before + t && t == Strip(s) + after;
    if Strip(s) == "" {
      assert s == before + after;
    } else {
      assert j == |t| || IsSpace(t[j]);
      assert Strip(s)[0] == t[0] == s[i];
      assert s[i] in s;
    }
  }

  lemma TrimmedStays(s: string)
    requires Trimmed(s)
    ensures Strip(s) == s
  {}

  // ----- joining ---------------------------------------------------------

  /** A field as it stands in a text: stripped, a space before it, or not at all. */
  function Spaced(field: string): string { if Strip(field) == "" then "" else " " + Strip(field) }

  function AllSpaced(fields: seq<string>): string {
    if fields == [] then "" else Spaced(fields[0]) + AllSpaced(fields[1..])
  }

  lemma JoinStep(fields: seq<string>)
    requires fields != []
    ensures var first, rest := Strip(fields[0]), Join(fields[1..]);
            Join(fields) == if first == "" then rest
                            else if NonBlank(fields[1..]) == [] then first
                            else first + " " + rest
  {
    if Strip(fields[0]) != "" {
      assert NonBlank(fields)[1..] == NonBlank(fields[1..]);
    }
  }

  lemma {:induction false} JoinIsTrimmed(fields: seq<string>)
    ensures Trimmed(Join(fields))
    ensures NonBlank(fields) == [] <==> Join(fields) == ""
  {
    if fields != [] {
      JoinIsTrimmed(fields[1..]);
      JoinStep(fields);
      var _, _ := StripIs(fields[0]);
    }
  }

  lemma Regroup(first: string, rest: string)
    ensures " " + first + (" " + rest) == " " + (first + " " + rest)
  {}

  lemma SpacedStep(fields: seq<string>)
    requires fields != []
    ensures Strip(fields[0]) == "" ==> AllSpaced(fields) == AllSpaced(fields[1..])
    ensures Strip(fields[0]) != "" ==> AllSpaced(fields) == " " + Strip(fields[0]) + AllSpaced(fields[1..])
  {
    assert "" + AllSpaced(fields[1..]) == AllSpaced(fields[1..]);
  }

  lemma {:induction false} JoinIs(fields: seq<string>)
    ensures AllSpaced(fields) == if NonBlank(fields) == [] then "" else " " + Join(fields)
  {
    if fields != [] {
      JoinIs(fields[1..]);
      JoinStep(fields);
      SpacedStep(fields);
      Regroup(Strip(fields[0]), Join(fields[1..]));
    }
  }

  function Cut(s: string): string { if |s| <= MAX_EMBED_CHARS then s else s[..MAX_EMBED_CHARS] }

  /** One item says what is spoken, without its first space and cut to length; nothing spoken is
      no item. */
  predicate Says(items: seq<Item>, identity: Identity, title: string, spoken: string) {
    && (spoken == "" ==> forall x :: x in items ==> x.identity != identity)
    && (spoken != "" ==> Item(identity, title, Cut(spoken[1..])) in items)
    && forall x, y :: x in items && y in items && x.identity == y.identity == identity ==> x == y
  }

  /** What `Optional` adds for some fields. */
  lemma OptionalSays(identity: Identity, title: string, fields: seq<string>)
    ensures var spoken := AllSpaced(fields);
            Optional(identity, title, Join(fields))
            == if spoken == "" then [] else [Item(identity, title, Cut(spoken[1..]))]
  {
    JoinIs(fields);
    JoinIsTrimmed(fields);
    TrimmedStays(Join(fields));
  }

  lemma DistinctMeansOne(items: seq<Item>, identity: Identity)
    requires DistinctIdentities(items)
    ensures forall x, y :: x in items && y in items && x.identity == y.identity == identity ==> x == y
  {
    forall x, y | x in items && y in items && x.identity == y.identity == identity ensures x == y {
      var i :| 0 <= i < |items| && items[i] == x;
      var j :| 0 <= j < |items| && items[j] == y;
      assert i < j || j < i || i == j;
    }
  }

  // ----- facets ----------------------------------------------------------

  function ServiceFacet(s: ServiceRow): seq<Item> {
    Optional(Facet(Service, Row(s.id)), s.name, Join([s.name, s.description, s.sector]))
  }

  function ProjectFacet(p: ProjectRow): seq<Item> {
    Optional(Facet(PastProject, Row(p.id)), p.title, Join([p.title, p.description, p.client, p.sector, p.country]))
  }

  lemma {:induction false} ServiceFacetsAre(services: seq<ServiceRow>, x: Item)
    ensures x in ServiceFacets(services) <==> exists s :: s in services && x in ServiceFacet(s)
  {
    if services != [] {
      ServiceFacetsAre(services[1..], x);
      assert services == [services[0]] + services[1..];
      assert ServiceFacets(services) == ServiceFacet(services[0]) + ServiceFacets(services[1..]);
    }
  }

  lemma {:induction false} ProjectFacetsAre(projects: seq<ProjectRow>, x: Item)
    ensures x in ProjectFacets(projects) <==> exists p :: p in projects && x in ProjectFacet(p)
  {
    if projects != [] {
      ProjectFacetsAre(projects[1..], x);
      assert projects == [projects[0]] + projects[1..];
      assert ProjectFacets(projects) == ProjectFacet(projects[0]) + ProjectFacets(projects[1..]);
    }
  }

  function OverviewFacet(p: CompanyProfile): seq<Item> {
    Optional(Facet(Overview, Profile), "Company overview", Join([p.overview]))
  }

  function SectorFacet(p: CompanyProfile): seq<Item> {
    Optional(Facet(SectorGeo, Profile), "Sectors and geographies", SectorText(p))
  }

  lemma ProfileFacetsAre(p: CompanyProfile, x: Item)
    ensures x in ProfileFacets(p) <==>
              || x in OverviewFacet(p) || x in SectorFacet(p)
              || (exists s :: s in p.services && x in ServiceFacet(s))
              || (exists r :: r in p.projects && x in ProjectFacet(r))
  {
    ServiceFacetsAre(p.services, x);
    ProjectFacetsAre(p.projects, x);
    assert ProfileFacets(p)
        == OverviewFacet(p) + SectorFacet(p) + ServiceFacets(p.services) + ProjectFacets(p.projects);
  }

  lemma ServiceStandsAlone(p: CompanyProfile, k: nat, x: Item)
    requires DistinctRows(p) && k < |p.services| && x.identity == Facet(Service, Row(p.services[k].id))
    ensures x in ProfileFacets(p) <==> x in ServiceFacet(p.services[k])
  {
    ProfileFacetsAre(p, x);
    forall s | s in p.services && x in ServiceFacet(s) ensures s == p.services[k] {
      var i :| 0 <= i < |p.services| && p.services[i] == s;
      assert i < k || k < i || i == k;
    }
  }

  lemma ProjectStandsAlone(p: CompanyProfile, k: nat, x: Item)
    requires DistinctRows(p) && k < |p.projects| && x.identity == Facet(PastProject, Row(p.projects[k].id))
    ensures x in ProfileFacets(p) <==> x in ProjectFacet(p.projects[k])
  {
    ProfileFacetsAre(p, x);
    forall r | r in p.projects && x in ProjectFacet(r) ensures r == p.projects[k] {
      var i :| 0 <= i < |p.projects| && p.projects[i] == r;
      assert i < k || k < i || i == k;
    }
  }

  lemma SaysIfOptional(items: seq<Item>, identity: Identity, title: string, fields: seq<string>)
    requires DistinctIdentities(items)
    requires forall x: Item :: x.identity == identity ==> (x in items <==> x in Optional(identity, title, Join(fields)))
    ensures Says(items, identity, title, AllSpaced(fields))
  {
    DistinctMeansOne(items, identity);
    OptionalSays(identity, title, fields);
  }

  /** Each service has the facet that says its name, description and sector, in this order and
      whichever of them are not blank; one of which all are blank has none. */
  lemma ServiceSays(p: CompanyProfile, k: nat)
    requires DistinctRows(p) && k < |p.services|
    ensures var s := p.services[k];
            Says(ProfileFacets(p), Facet(Service, Row(s.id)), s.name, AllSpaced([s.name, s.description, s.sector]))
  {
    var s := p.services[k];
    FacetsAreDistinct(p);
    forall x: Item | x.identity == Facet(Service, Row(s.id)) ensures x in ProfileFacets(p) <==> x in ServiceFacet(s) {
      ServiceStandsAlone(p, k, x);
    }
    SaysIfOptional(ProfileFacets(p), Facet(Service, Row(s.id)), s.name, [s.name, s.description, s.sector]);
  }

  /** Each past project: its title, description, client, sector and country. */
  lemma ProjectSays(p: CompanyProfile, k: nat)
    requires DistinctRows(p) && k < |p.projects|
    ensures var r := p.projects[k];
            Says(ProfileFacets(p), Facet(PastProject, Row(r.id)), r.title,
                 AllSpaced([r.title, r.description, r.client, r.sector, r.country]))
  {
    var r := p.projects[k];
    FacetsAreDistinct(p);
    forall x: Item | x.identity == Facet(PastProject, Row(r.id))
      ensures x in ProfileFacets(p) <==> x in ProjectFacet(r)
    {
      ProjectStandsAlone(p, k, x);
    }
    SaysIfOptional(ProfileFacets(p), Facet(PastProject, Row(r.id)), r.title,
                   [r.title, r.description, r.client, r.sector, r.country]);
  }

  lemma OverviewSays(p: CompanyProfile)
    requires DistinctRows(p)
    ensures Says(ProfileFacets(p), Facet(Overview, Profile), "Company overview", AllSpaced([p.overview]))
  {
    FacetsAreDistinct(p);
    forall x: Item | x.identity == Facet(Overview, Profile) ensures x in ProfileFacets(p) <==> x in OverviewFacet(p) {
      ProfileFacetsAre(p, x);
    }
    SaysIfOptional(ProfileFacets(p), Facet(Overview, Profile), "Company overview", [p.overview]);
  }

  /** The labels: sectors, then geographies, then keywords, each list with commas. */
  lemma LabelsSay(p: CompanyProfile)
    requires DistinctRows(p)
    ensures Says(ProfileFacets(p), Facet(SectorGeo, Profile), "Sectors and geographies",
                 AllSpaced([Separate(p.sectors, ", "),
                            if p.geographies == [] then "" else "operating in " + Separate(p.geographies, ", "),
                            Separate(p.keywords, ", ")]))
  {
    FacetsAreDistinct(p);
    forall x: Item | x.identity == Facet(SectorGeo, Profile) ensures x in ProfileFacets(p) <==> x in SectorFacet(p) {
      ProfileFacetsAre(p, x);
    }
    SaysIfOptional(ProfileFacets(p), Facet(SectorGeo, Profile), "Sectors and geographies",
                   [Separate(p.sectors, ", "),
                    if p.geographies == [] then "" else "operating in " + Separate(p.geographies, ", "),
                    Separate(p.keywords, ", ")]);
  }

  /** A list with commas can be taken apart at any of its labels. */
  lemma {:induction false} SeparateAt(labels: seq<string>, separator: string, k: nat)
    requires k < |labels|
    ensures Separate(labels, separator)
         == (if k == 0 then "" else Separate(labels[..k], separator) + separator)
            + labels[k]
            + (if k == |labels| - 1 then "" else separator + Separate(labels[k + 1..], separator))
  {
    if k > 0 {
      SeparateAt(labels[1..], separator, k - 1);
      assert labels[1..][..k - 1] == labels[..k][1..] && labels[1..][k..] == labels[k + 1..];
    }
  }

  // ----- chunks ----------------------------------------------------------

  /** The headline says title, buyer, category, procedure, summary and description; the scope what
      was extracted. */
  lemma ChunksSay(n: Notice)
    requires HasCategory(n)
    ensures Says(TenderChunks(n), Chunk(TitleSummary), n.title,
                 AllSpaced([n.title, n.entity, n.category, n.procedure, n.summary, n.description]))
    ensures Says(TenderChunks(n), Chunk(ScopeRequirements), n.title, AllSpaced(n.scope))
  {
    ChunksAreDistinct(n);
    OptionalSays(Chunk(TitleSummary), n.title, [n.title, n.entity, n.category, n.procedure, n.summary, n.description]);
    OptionalSays(Chunk(ScopeRequirements), n.title, n.scope);
  }

  // ----- edits -----------------------------------------------------------

  predicate Fits(fields: seq<string>) { |AllSpaced(fields)| <= MAX_EMBED_CHARS + 1 }

  lemma Reassociate(first: string, a: string, b: string, c: string)
    ensures first + (a + b + c) == first + a + b + c
  {}

  lemma {:induction false} SpacedAt(fields: seq<string>, j: nat)
    requires j < |fields|
    ensures AllSpaced(fields) == AllSpaced(fields[..j]) + Spaced(fields[j]) + AllSpaced(fields[j + 1..])
  {
    if j > 0 {
      SpacedAt(fields[1..], j - 1);
      assert fields[1..][..j - 1] == fields[..j][1..] && fields[1..][j..] == fields[j + 1..];
      Reassociate(Spaced(fields[0]), AllSpaced(fields[..j][1..]), Spaced(fields[j]), AllSpaced(fields[j + 1..]));
    }
  }

  lemma MiddleDecides(before: string, u: string, v: string, after: string)
    ensures before + u + after == before + v + after <==> u == v
  {
    if before + u + after == before + v + after {
      assert |u| == |v|;
      assert u == (before + u + after)[|before|..|before| + |u|];
      assert v == (before + v + after)[|before|..|before| + |v|];
    }
  }

  lemma SpacedIff(u: string, v: string)
    ensures Spaced(u) == Spaced(v) <==> Strip(u) == Strip(v)
  {
    assert Strip(u) == (" " + Strip(u))[1..] && Strip(v) == (" " + Strip(v))[1..];
  }

  /** One field edited: the text is the same exactly when the field is, white space at its ends
      apart. */
  lemma EditShowsIff(fields: seq<string>, j: nat, value: string)
    requires j < |fields|
    ensures AllSpaced(fields) == AllSpaced(fields[j := value]) <==> Strip(fields[j]) == Strip(value)
  {
    var edited := fields[j := value];
    SpacedAt(fields, j);
    SpacedAt(edited, j);
    assert edited[..j] == fields[..j] && edited[j + 1..] == fields[j + 1..];
    SpacedIff(fields[j], value);
    MiddleDecides(AllSpaced(fields[..j]), Spaced(fields[j]), Spaced(value), AllSpaced(fields[j + 1..]));
  }

  predicate HasText(items: seq<Item>, identity: Identity, hash: string) {
    exists x :: x in items && x.identity == identity && Hash(x.text) == hash
  }

  /** From a fresh table, an item is sent to the model exactly when it is new or its text is. */
  lemma SentIff(rows: seq<StoredRow>, was: seq<Item>, now: seq<Item>, model: string, embed: Embedder, x: Item)
    requires Fresh(rows, was, model, embed) && DistinctIdentities(was)
    ensures x in ToEmbed(now, Hashes(rows, ByIdentity(rows, model)))
            <==> x in now && !HasText(was, x.identity, Hash(x.text))
  {
    var held := ByIdentity(rows, model);
    ToEmbedMembers(now, Hashes(rows, held));
    DistinctMeansOne(was, x.identity);
    if x.identity in held {
      assert HoldsSome(rows[held[x.identity]], was, model, embed);
      var y :| y in was && Holds(rows[held[x.identity]], y, model, embed);
      assert Unchanged(x, Hashes(rows, held)) <==> Hash(y.text) == Hash(x.text);
    }
    forall y | y in was ensures y.identity in held {
      var r :| r in rows && Holds(r, y, model, embed);
      assert r.identity in held;
    }
  }

  /** Every item but the one named has the text it had. */
  predicate TextsStand(was: seq<Item>, now: seq<Item>, identity: Identity) {
    forall x :: x in now && x.identity != identity ==> HasText(was, x.identity, Hash(x.text))
  }

  /** One field differs, and neither text is cut. */
  predicate OneField(fields: seq<string>, edited: seq<string>, j: nat) {
    j < |fields| == |edited| && edited == fields[j := edited[j]] && Fits(fields) && Fits(edited)
  }

  /** Two lists of items, one of them edited in one field. */
  predicate IsEdit(was: seq<Item>, now: seq<Item>, identity: Identity, title: string, other: string,
      fields: seq<string>, j: nat, edited: seq<string>)
  {
    && DistinctIdentities(was) && TextsStand(was, now, identity)
    && Says(was, identity, title, AllSpaced(fields)) && Says(now, identity, other, AllSpaced(edited))
    && OneField(fields, edited, j)
  }

  lemma UncutText(items: seq<Item>, identity: Identity, title: string, fields: seq<string>, x: Item)
    requires Says(items, identity, title, AllSpaced(fields)) && Fits(fields)
    ensures x in items && x.identity == identity ==> Hash(x.text) == Join(fields)
    ensures HasText(items, identity, Join(fields)) <==> Join(fields) != ""
  {
    JoinIs(fields);
    JoinIsTrimmed(fields);
    TrimmedStays(Join(fields));
    if Join(fields) != "" {
      assert Cut(AllSpaced(fields)[1..]) == Join(fields);
      assert Item(identity, title, Join(fields)) in items;
    }
  }

  lemma SameJoin(fields: seq<string>, edited: seq<string>)
    ensures Join(fields) == Join(edited) <==> AllSpaced(fields) == AllSpaced(edited)
  {
    JoinIs(fields);
    JoinIs(edited);
    JoinIsTrimmed(fields);
    JoinIsTrimmed(edited);
    if Join(fields) != "" && Join(edited) != "" {
      assert Join(fields) == AllSpaced(fields)[1..] && Join(edited) == AllSpaced(edited)[1..];
    }
  }

  lemma OneTextSent(rows: seq<StoredRow>, was: seq<Item>, now: seq<Item>, model: string, embed: Embedder,
      identity: Identity, title: string, other: string, fields: seq<string>, j: nat, edited: seq<string>, x: Item)
    requires Fresh(rows, was, model, embed) && IsEdit(was, now, identity, title, other, fields, j, edited)
    ensures x in ToEmbed(now, Hashes(rows, ByIdentity(rows, model)))
            <==> x in now && x.identity == identity && Strip(fields[j]) != Strip(edited[j])
  {
    SentIff(rows, was, now, model, embed, x);
    EditShowsIff(fields, j, edited[j]);
    SameJoin(fields, edited);
    if x in now && x.identity == identity {
      UncutText(now, identity, other, edited, x);
      UncutText(was, identity, title, fields, x);
      if HasText(was, identity, Join(edited)) {
        var y :| y in was && y.identity == identity && Hash(y.text) == Join(edited);
        UncutText(was, identity, title, fields, y);
      }
    }
  }

  lemma ServiceEditStaysInPlace(p: CompanyProfile, k: nat, edited: ServiceRow)
    requires k < |p.services| && edited.id == p.services[k].id
    ensures TextsStand(ProfileFacets(p), ProfileFacets(p.(services := p.services[k := edited])),
                       Facet(Service, Row(edited.id)))
  {
    var p' := p.(services := p.services[k := edited]);
    forall x | x in ProfileFacets(p') && x.identity != Facet(Service, Row(edited.id)) ensures x in ProfileFacets(p) {
      ProfileFacetsAre(p', x);
      ProfileFacetsAre(p, x);
    }
  }

  lemma ProjectEditStaysInPlace(p: CompanyProfile, k: nat, edited: ProjectRow)
    requires k < |p.projects| && edited.id == p.projects[k].id
    ensures TextsStand(ProfileFacets(p), ProfileFacets(p.(projects := p.projects[k := edited])),
                       Facet(PastProject, Row(edited.id)))
  {
    var p' := p.(projects := p.projects[k := edited]);
    forall x | x in ProfileFacets(p') && x.identity != Facet(PastProject, Row(edited.id))
      ensures x in ProfileFacets(p)
    {
      ProfileFacetsAre(p', x);
      ProfileFacetsAre(p, x);
    }
  }

  function ServiceFields(s: ServiceRow): seq<string> { [s.name, s.description, s.sector] }

  function ProjectFields(r: ProjectRow): seq<string> { [r.title, r.description, r.client, r.sector, r.country] }

  function NoticeFields(n: Notice): seq<string> {
    [n.title, n.entity, n.category, n.procedure, n.summary, n.description]
  }

  lemma ServiceEditKeepsRows(p: CompanyProfile, k: nat, edited: ServiceRow)
    requires DistinctRows(p) && k < |p.services| && edited.id == p.services[k].id
    ensures DistinctRows(p.(services := p.services[k := edited]))
  {}

  lemma ServiceFieldsSay(p: CompanyProfile, k: nat)
    requires DistinctRows(p) && k < |p.services|
    ensures var s := p.services[k];
            Says(ProfileFacets(p), Facet(Service, Row(s.id)), s.name, AllSpaced(ServiceFields(s)))
  {
    ServiceSays(p, k);
  }

  lemma ServiceEdit(p: CompanyProfile, k: nat, edited: ServiceRow, j: nat)
    requires DistinctRows(p) && k < |p.services| && edited.id == p.services[k].id
    requires OneField(ServiceFields(p.services[k]), ServiceFields(edited), j)
    ensures IsEdit(ProfileFacets(p), ProfileFacets(p.(services := p.services[k := edited])),
                   Facet(Service, Row(edited.id)), p.services[k].name, edited.name,
                   ServiceFields(p.services[k]), j, ServiceFields(edited))
  {
    FacetsAreDistinct(p);
    ServiceEditKeepsRows(p, k, edited);
    ServiceFieldsSay(p, k);
    ServiceFieldsSay(p.(services := p.services[k := edited]), k);
    ServiceEditStaysInPlace(p, k, edited);
  }

  /** After one field of a service was edited, the sync of a fresh table sends just this service's
      facet to the model, exactly when the field reads differently. */
  lemma EditedServiceIsSent(p: CompanyProfile, k: nat, edited: ServiceRow, j: nat, rows: seq<StoredRow>,
      model: string, embed: Embedder, x: Item)
    requires DistinctRows(p) && k < |p.services| && edited.id == p.services[k].id
    requires OneField(ServiceFields(p.services[k]), ServiceFields(edited), j)
    requires Fresh(rows, ProfileFacets(p), model, embed)
    ensures var items := ProfileFacets(p.(services := p.services[k := edited]));
            x in ToEmbed(items, Hashes(rows, ByIdentity(rows, model)))
            <==> x in items && x.identity == Facet(Service, Row(edited.id))
                 && Strip(ServiceFields(p.services[k])[j]) != Strip(ServiceFields(edited)[j])
  {
    ServiceEdit(p, k, edited, j);
    OneTextSent(rows, ProfileFacets(p), ProfileFacets(p.(services := p.services[k := edited])), model, embed,
                Facet(Service, Row(edited.id)), p.services[k].name, edited.name,
                ServiceFields(p.services[k]), j, ServiceFields(edited), x);
  }

  lemma ProjectEditKeepsRows(p: CompanyProfile, k: nat, edited: ProjectRow)
    requires DistinctRows(p) && k < |p.projects| && edited.id == p.projects[k].id
    ensures DistinctRows(p.(projects := p.projects[k := edited]))
  {}

  lemma ProjectFieldsSay(p: CompanyProfile, k: nat)
    requires DistinctRows(p) && k < |p.projects|
    ensures var r := p.projects[k];
            Says(ProfileFacets(p), Facet(PastProject, Row(r.id)), r.title, AllSpaced(ProjectFields(r)))
  {
    ProjectSays(p, k);
  }

  lemma ProjectEdit(p: CompanyProfile, k: nat, edited: ProjectRow, j: nat)
    requires DistinctRows(p) && k < |p.projects| && edited.id == p.projects[k].id
    requires OneField(ProjectFields(p.projects[k]), ProjectFields(edited), j)
    ensures IsEdit(ProfileFacets(p), ProfileFacets(p.(projects := p.projects[k := edited])),
                   Facet(PastProject, Row(edited.id)), p.projects[k].title, edited.title,
                   ProjectFields(p.projects[k]), j, ProjectFields(edited))
  {
    FacetsAreDistinct(p);
    ProjectEditKeepsRows(p, k, edited);
    ProjectFieldsSay(p, k);
    ProjectFieldsSay(p.(projects := p.projects[k := edited]), k);
    ProjectEditStaysInPlace(p, k, edited);
  }

  /** The same of a past project. */
  lemma EditedProjectIsSent(p: CompanyProfile, k: nat, edited: ProjectRow, j: nat, rows: seq<StoredRow>,
      model: string, embed: Embedder, x: Item)
    requires DistinctRows(p) && k < |p.projects| && edited.id == p.projects[k].id
    requires OneField(ProjectFields(p.projects[k]), ProjectFields(edited), j)
    requires Fresh(rows, ProfileFacets(p), model, embed)
    ensures var items := ProfileFacets(p.(projects := p.projects[k := edited]));
            x in ToEmbed(items, Hashes(rows, ByIdentity(rows, model)))
            <==> x in items && x.identity == Facet(PastProject, Row(edited.id))
                 && Strip(ProjectFields(p.projects[k])[j]) != Strip(ProjectFields(edited)[j])
  {
    ProjectEdit(p, k, edited, j);
    OneTextSent(rows, ProfileFacets(p), ProfileFacets(p.(projects := p.projects[k := edited])), model, embed,
                Facet(PastProject, Row(edited.id)), p.projects[k].title, edited.title,
                ProjectFields(p.projects[k]), j, ProjectFields(edited), x);
  }

  lemma NoticeEditStaysInPlace(n: Notice, edited: Notice)
    requires HasCategory(n) && HasCategory(edited) && edited.scope == n.scope
    ensures TextsStand(TenderChunks(n), TenderChunks(edited), Chunk(TitleSummary))
  {
    ChunksAreDistinct(n);
    ChunksAreDistinct(edited);
    if Join(n.scope) != "" { assert ScopeChunk(n) in TenderChunks(n); }
  }

  lemma NoticeEdit(n: Notice, edited: Notice, j: nat)
    requires HasCategory(n) && HasCategory(edited) && edited.scope == n.scope
    requires OneField(NoticeFields(n), NoticeFields(edited), j)
    ensures IsEdit(TenderChunks(n), TenderChunks(edited), Chunk(TitleSummary), n.title, edited.title,
                   NoticeFields(n), j, NoticeFields(edited))
  {
    ChunksAreDistinct(n);
    ChunksSay(n);
    ChunksSay(edited);
    NoticeEditStaysInPlace(n, edited);
  }

  /** And of a notice's own fields, the title included: such an edit never re-embeds the scope. */
  lemma EditedNoticeIsSent(n: Notice, edited: Notice, j: nat, rows: seq<StoredRow>, model: string, embed: Embedder,
      x: Item)
    requires HasCategory(n) && HasCategory(edited) && edited.scope == n.scope
    requires OneField(NoticeFields(n), NoticeFields(edited), j)
    requires Fresh(rows, TenderChunks(n), model, embed)
    ensures x in ToEmbed(TenderChunks(edited), Hashes(rows, ByIdentity(rows, model)))
            <==> x in TenderChunks(edited) && x.identity == Chunk(TitleSummary)
                 && Strip(NoticeFields(n)[j]) != Strip(NoticeFields(edited)[j])
  {
    NoticeEdit(n, edited, j);
    OneTextSent(rows, TenderChunks(n), TenderChunks(edited), model, embed, Chunk(TitleSummary), n.title,
                edited.title, NoticeFields(n), j, NoticeFields(edited), x);
  }
}
