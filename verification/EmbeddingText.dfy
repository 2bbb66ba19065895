/** The texts that get embedded: backend/app/ai/embeddings.py. Absent fields are empty
    strings; white space is space, tab, line feed and carriage return. */
module EmbeddingText {

  datatype FacetKind = Overview | SectorGeo | Service | PastProject
  datatype ChunkKind = TitleSummary | ScopeRequirements
  datatype Source = Profile | Row(id: nat)

  /** What a stored vector is filed under. */
  datatype Identity = Facet(facet: FacetKind, source: Source) | Chunk(chunk: ChunkKind)

  datatype Item = Item(identity: Identity, title: string, text: string)

  datatype ServiceRow = ServiceRow(id: nat, name: string, description: string, sector: string)
  datatype ProjectRow = ProjectRow(
    id: nat, title: string, description: string, client: string, sector: string, country: string)
  datatype CompanyProfile = CompanyProfile(
    overview: string, sectors: seq<string>, geographies: seq<string>, keywords: seq<string>,
    services: seq<ServiceRow>, projects: seq<ProjectRow>)

  const MAX_EMBED_CHARS := 8000

  predicate IsSpace(c: char) { c == ' ' || c == '\t' || c == '\n' || c == '\r' }

  function StripLeft(s: string): string {
    if s != [] && IsSpace(s[0]) then StripLeft(s[1..]) else s
  }

  function StripRight(s: string): string {
    if s != [] && IsSpace(s[|s| - 1]) then StripRight(s[..|s| - 1]) else s
  }

  function Strip(s: string): string { StripRight(StripLeft(s)) }

  function Clip(s: string): (r: string)
    ensures |r| <= MAX_EMBED_CHARS
  {
    var t := Strip(s);
    if |t| <= MAX_EMBED_CHARS then t else t[..MAX_EMBED_CHARS]
  }

  function Separate(parts: seq<string>, separator: string): string {
    if parts == [] then ""
    else if |parts| == 1 then parts[0]
    else parts[0] + separator + Separate(parts[1..], separator)
  }

  function NonBlank(parts: seq<string>): seq<string> {
    if parts == [] then []
    else if Strip(parts[0]) != "" then [Strip(parts[0])] + NonBlank(parts[1..])
    else NonBlank(parts[1..])
  }

  function Join(parts: seq<string>): string { Separate(NonBlank(parts), " ") }

  function Optional(identity: Identity, title: string, text: string): seq<Item> {
    if text != "" then [Item(identity, title, Clip(text))] else []
  }

  function ServiceFacets(services: seq<ServiceRow>): seq<Item> {
    if services == [] then []
    else
      var s := services[0];
      Optional(Facet(Service, Row(s.id)), s.name, Join([s.name, s.description, s.sector]))
      + ServiceFacets(services[1..])
  }

  function ProjectFacets(projects: seq<ProjectRow>): seq<Item> {
    if projects == [] then []
    else
      var p := projects[0];
      Optional(Facet(PastProject, Row(p.id)), p.title,
               Join([p.title, p.description, p.client, p.sector, p.country]))
      + ProjectFacets(projects[1..])
  }

  function SectorText(p: CompanyProfile): string {
    Join([Separate(p.sectors, ", "),
          if p.geographies != [] then "operating in " + Separate(p.geographies, ", ") else "",
          Separate(p.keywords, ", ")])
  }

  function ProfileFacets(p: CompanyProfile): seq<Item> {
    Optional(Facet(Overview, Profile), "Company overview", Join([p.overview]))
    + Optional(Facet(SectorGeo, Profile), "Sectors and geographies", SectorText(p))
    + ServiceFacets(p.services)
    + ProjectFacets(p.projects)
  }

  /** A notice's own fields, and the extracted ones: `scope` is empty before extraction. */
  datatype Notice = Notice(
    title: string, entity: string, category: string, procedure: string, summary: string, description: string,
    scope: seq<string>)

  /** A procurement category is an enumeration value and never blank. */
  predicate HasCategory(n: Notice) { Strip(n.category) != "" }

  function Headline(n: Notice): string {
    Join([n.title, n.entity, n.category, n.procedure, n.summary, n.description])
  }

  function TenderChunks(n: Notice): seq<Item> {
    Optional(Chunk(TitleSummary), n.title, Headline(n))
    + Optional(Chunk(ScopeRequirements), n.title, Join(n.scope))
  }

  // ----- what is sent to the model ---------------------------------------

  /** A facet's stripped text is embedded as a query; a chunk's as a document, under the title of
      its notice. */
  function Prompt(identity: Identity, title: string, body: string): string {
    match identity
    case Facet(_, _) => "task: search result | query: " + body
    case Chunk(_) => "title: " + Strip(title) + (" | text: " + body)
  }

  /** For one body, prompts differ exactly for chunks under titles that differ. */
  lemma SamePromptIff(identity: Identity, title: string, other: string, body: string)
    ensures Prompt(identity, title, body) == Prompt(identity, other, body)
            <==> (identity.Chunk? ==> Strip(title) == Strip(other))
  {
    if identity.Chunk? {
      var tail := " | text: " + body;
      var a, b := "title: " + Strip(title) + tail, "title: " + Strip(other) + tail;
      if a == b {
        assert |Strip(title)| == |Strip(other)|;
        assert Strip(title) == a[7..7 + |Strip(title)|] && Strip(other) == b[7..7 + |Strip(other)|];
      }
    }
  }

  predicate DistinctIdentities(items: seq<Item>) {
    forall i, j :: 0 <= i < j < |items| ==> items[i].identity != items[j].identity
  }

  /** Primary keys: no two services and no two projects share an id. */
  predicate DistinctRows(p: CompanyProfile) {
    && (forall i, j :: 0 <= i < j < |p.services| ==> p.services[i].id != p.services[j].id)
    && (forall i, j :: 0 <= i < j < |p.projects| ==> p.projects[i].id != p.projects[j].id)
  }

  lemma {:induction false} ServiceFacetsAreDistinct(services: seq<ServiceRow>)
    requires forall i, j :: 0 <= i < j < |services| ==> services[i].id != services[j].id
    ensures DistinctIdentities(ServiceFacets(services))
    ensures forall x :: x in ServiceFacets(services) ==>
              exists s :: s in services && x.identity == Facet(Service, Row(s.id))
  {
    if services != [] {
      ServiceFacetsAreDistinct(services[1..]);
      var rest := ServiceFacets(services[1..]);
      forall x | x in ServiceFacets(services)
        ensures exists s :: s in services && x.identity == Facet(Service, Row(s.id))
      {
        if x in rest {
          var s :| s in services[1..] && x.identity == Facet(Service, Row(s.id));
          assert s in services;
        } else {
          assert services[0] in services;
        }
      }
      forall x | x in rest ensures x.identity != Facet(Service, Row(services[0].id)) {}
    }
  }

  lemma {:induction false} ProjectFacetsAreDistinct(projects: seq<ProjectRow>)
    requires forall i, j :: 0 <= i < j < |projects| ==> projects[i].id != projects[j].id
    ensures DistinctIdentities(ProjectFacets(projects))
    ensures forall x :: x in ProjectFacets(projects) ==>
              exists p :: p in projects && x.identity == Facet(PastProject, Row(p.id))
  {
    if projects != [] {
      ProjectFacetsAreDistinct(projects[1..]);
      var rest := ProjectFacets(projects[1..]);
      forall x | x in ProjectFacets(projects)
        ensures exists p :: p in projects && x.identity == Facet(PastProject, Row(p.id))
      {
        if x in rest {
          var p :| p in projects[1..] && x.identity == Facet(PastProject, Row(p.id));
          assert p in projects;
        } else {
          assert projects[0] in projects;
        }
      }
      forall x | x in rest ensures x.identity != Facet(PastProject, Row(projects[0].id)) {}
    }
  }

  lemma AppendDistinct(a: seq<Item>, b: seq<Item>)
    requires DistinctIdentities(a) && DistinctIdentities(b)
    requires forall x, y :: x in a && y in b ==> x.identity != y.identity
    ensures DistinctIdentities(a + b)
  {
    forall i, j | 0 <= i < j < |a + b| ensures (a + b)[i].identity != (a + b)[j].identity {
      if i < |a| <= j {
        assert (a + b)[i] in a && (a + b)[j] in b;
      }
    }
  }

  lemma {:induction false} SeparateKeepsText(parts: seq<string>, separator: string, i: nat)
    requires i < |parts| && parts[i] != ""
    ensures Separate(parts, separator) != ""
  {
    if i > 0 {
      SeparateKeepsText(parts[1..], separator, i - 1);
    }
  }

  lemma {:induction false} JoinKeepsText(parts: seq<string>, i: nat)
    requires i < |parts| && Strip(parts[i]) != ""
    ensures NonBlank(parts) != [] && Join(parts) != ""
  {
    if i > 0 {
      JoinKeepsText(parts[1..], i - 1);
    }
    NonBlankIsNotBlank(parts);
    SeparateKeepsText(NonBlank(parts), " ", 0);
  }

  lemma {:induction false} NonBlankIsNotBlank(parts: seq<string>)
    ensures forall i :: 0 <= i < |NonBlank(parts)| ==> NonBlank(parts)[i] != ""
  {
    if parts != [] {
      NonBlankIsNotBlank(parts[1..]);
    }
  }

  /** No two chunks of one notice share an identity, and the headline is always there; the scope
      is there exactly when the extraction says something. */
  lemma ChunksAreDistinct(n: Notice)
    requires HasCategory(n)
    ensures DistinctIdentities(TenderChunks(n))
    ensures TenderChunks(n) == [Item(Chunk(TitleSummary), n.title, Clip(Headline(n)))]
                               + (if Join(n.scope) != "" then [ScopeChunk(n)] else [])
  {
    JoinKeepsText([n.title, n.entity, n.category, n.procedure, n.summary, n.description], 2);
  }

  function ScopeChunk(n: Notice): Item { Item(Chunk(ScopeRequirements), n.title, Clip(Join(n.scope))) }

  /** No two facets of one profile share an identity. */
  lemma FacetsAreDistinct(p: CompanyProfile)
    requires DistinctRows(p)
    ensures DistinctIdentities(ProfileFacets(p))
  {
    ServiceFacetsAreDistinct(p.services);
    ProjectFacetsAreDistinct(p.projects);
    var head := Optional(Facet(Overview, Profile), "Company overview", Join([p.overview]))
              + Optional(Facet(SectorGeo, Profile), "Sectors and geographies", SectorText(p));
    assert DistinctIdentities(head);
    AppendDistinct(head, ServiceFacets(p.services));
    AppendDistinct(head + ServiceFacets(p.services), ProjectFacets(p.projects));
  }

  lemma {:induction false} ServiceFacetsAreFacets(services: seq<ServiceRow>)
    ensures forall x :: x in ServiceFacets(services) ==> x.identity.Facet?
  {
    if services != [] { ServiceFacetsAreFacets(services[1..]); }
  }

  lemma {:induction false} ProjectFacetsAreFacets(projects: seq<ProjectRow>)
    ensures forall x :: x in ProjectFacets(projects) ==> x.identity.Facet?
  {
    if projects != [] { ProjectFacetsAreFacets(projects[1..]); }
  }

  lemma FacetsAreFacets(p: CompanyProfile)
    ensures forall x :: x in ProfileFacets(p) ==> x.identity.Facet?
  {
    ServiceFacetsAreFacets(p.services);
    ProjectFacetsAreFacets(p.projects);
  }
}
