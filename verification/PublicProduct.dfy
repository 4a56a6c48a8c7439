/**
 public_product: at the API edge every report inside a response gets the public paths of its
 two references, whatever the stored references were.
 */
module PublicProduct {
  import opened PercentEncoding

  // A value of a response; Model is an object that dumps itself as plain data.
  datatype Json =
    | Null
    | Bool(b: bool)
    | Num(n: real)
    | Str(s: string)
    | List(items: seq<Json>)
    | Dict(fields: map<string, Json>)
    | Model(dump: Json)

  // quote refuses an identifier that is not text.
  datatype Result = Ok(value: Json) | TypeError

  const ID := "report_id"
  const STATUS := "availability_status"
  const VIEW := "view_reference"
  const DOWNLOAD := "download_reference"

  function ViewPath(id: string): string {
    "/api/v1/cloud/reports/" + Quote(id)
  }

  function DownloadPath(id: string): string {
    ViewPath(id) + "/download"
  }

  // The plain data of a value at its top.
  function Plain(v: Json): Json {
    if v.Model? then Plain(v.dump) else v
  }

  predicate Truthy(v: Json) {
    match Plain(v)
    case Null => false
    case Bool(b) => b
    case Num(n) => n != 0.0
    case Str(s) => s != ""
    case List(items) => items != []
    case Dict(fields) => fields != map[]
    case Model(_) => false
  }

  predicate IsReport(fields: map<string, Json>) {
    ID in fields && Truthy(fields[ID]) && VIEW in fields
  }

  predicate Deleted(fields: map<string, Json>) {
    STATUS in fields && Plain(fields[STATUS]) == Str("deleted")
  }

  // The last step for one dictionary, whose members are already projected.
  function Refer(fields: map<string, Json>): Result {
    if !IsReport(fields) then Ok(Dict(fields))
    else if Deleted(fields) then Ok(Dict(fields[VIEW := Str("")][DOWNLOAD := Str("")]))
    else
      match fields[ID]
      case Str(id) => Ok(Dict(fields[VIEW := Str(ViewPath(id))][DOWNLOAD := Str(DownloadPath(id))]))
      case _ => TypeError
  }

  function Project(v: Json): Result {
    match v
    case Model(dump) => Project(dump)
    case List(items) =>
      if forall i :: 0 <= i < |items| ==> Project(items[i]).Ok?
      then Ok(List(seq(|items|, i requires 0 <= i < |items| => Project(items[i]).value)))
      else TypeError
    case Dict(fields) =>
      if forall k :: k in fields ==> Project(fields[k]).Ok?
      then Refer(map k | k in fields :: Project(fields[k]).value)
      else TypeError
    case _ => Ok(v)
  }

  // --- What a projected response looks like ---

  predicate Referred(fields: map<string, Json>) {
    && "view_reference" in fields && "download_reference" in fields && "report_id" in fields
    && if Deleted(fields) then fields["view_reference"] == fields["download_reference"] == Str("")
       else
         && fields["report_id"].Str?
         && fields["view_reference"] == Str("/api/v1/cloud/reports/" + Quote(fields["report_id"].s))
         && fields["download_reference"] == Str("/api/v1/cloud/reports/" + Quote(fields["report_id"].s) + "/download")
  }

  // The values that count as no identifier at all.
  predicate Falsy(v: Json) {
    v in {Null, Bool(false), Num(0.0), Str(""), List([]), Dict(map[])}
  }

  // A dictionary is a report exactly when it has a view reference and an identifier that counts,
  // and the report is deleted exactly when its status says so.
  lemma ReportIff(fields: map<string, Json>)
    ensures IsReport(fields) <==>
              "report_id" in fields && "view_reference" in fields && !Falsy(Plain(fields["report_id"]))
    ensures Deleted(fields) <==>
              "availability_status" in fields && Plain(fields["availability_status"]) == Str("deleted")
  {
    if ID in fields {
      TruthyIff(fields[ID]);
    }
  }

  lemma {:induction false} TruthyIff(v: Json)
    ensures Truthy(v) <==> !Falsy(Plain(v))
    ensures !Plain(v).Model?
  {
    if v.Model? {
      TruthyIff(v.dump);
    }
  }

  // The plain value of a stack of models is what the innermost one dumps.
  function Wrapped(v: Json, times: nat): Json {
    if times == 0 then v else Model(Wrapped(v, times - 1))
  }

  lemma {:induction false} PlainUnwraps(v: Json, times: nat)
    requires !v.Model?
    ensures Plain(Wrapped(v, times)) == v
  {
    if times > 0 {
      PlainUnwraps(v, times - 1);
    }
  }

  // Plain data in which every report, at any depth, carries its public references.
  predicate Public(w: Json) {
    match w
    case Model(_) => false
    case List(items) => forall i :: 0 <= i < |items| ==> Public(items[i])
    case Dict(fields) => (forall k :: k in fields ==> Public(fields[k])) && (IsReport(fields) ==> Referred(fields))
    case _ => true
  }

  // w is v with its models dumped and, in reports only, the two references replaced.
  predicate SameButReferences(v: Json, w: Json) {
    match v
    case Model(dump) => SameButReferences(dump, w)
    case List(items) =>
      && w.List? && |w.items| == |items|
      && forall i :: 0 <= i < |items| ==> SameButReferences(items[i], w.items[i])
    case Dict(fields) =>
      && w.Dict?
      && (w.fields.Keys == fields.Keys || (IsReport(w.fields) && w.fields.Keys == fields.Keys + {DOWNLOAD}))
      && forall k :: k in fields ==>
           (IsReport(w.fields) && k in {VIEW, DOWNLOAD}) || SameButReferences(fields[k], w.fields[k])
    case _ => w == v
  }

  // Somewhere in v a live report has an identifier that is not text.
  predicate Unquotable(v: Json) {
    match v
    case Model(dump) => Unquotable(dump)
    case List(items) => exists i :: 0 <= i < |items| && Unquotable(items[i])
    case Dict(fields) =>
      || (exists k :: k in fields && Unquotable(fields[k]))
      || (IsReport(fields) && !Deleted(fields) && !Plain(fields[ID]).Str?)
    case _ => false
  }

  // --- Helpers about one level ---

  // Projection changes neither the truth of a value nor any text.
  lemma {:induction false} ProjectKeepsTop(v: Json)
    requires Project(v).Ok?
    ensures var w := Project(v).value;
            && Truthy(w) == Truthy(v) && !w.Model? && Plain(w) == w
            && (w.Str? <==> Plain(v).Str?) && (w.Str? ==> w == Plain(v))
  {
    match v
    case Model(dump) => ProjectKeepsTop(dump);
    case Dict(fields) =>
      var members := map k | k in fields :: Project(fields[k]).value;
      assert members.Keys == fields.Keys;
      assert fields != map[] ==> exists k :: k in fields;
      if k :| k in fields {
        assert k in members && k in Project(v).value.fields;
      }
    case _ =>
  }

  function Members(fields: map<string, Json>): map<string, Json>
    requires forall k :: k in fields ==> Project(fields[k]).Ok?
  {
    map k | k in fields :: Project(fields[k]).value
  }

  // A dictionary is a report before its members are projected exactly when it is one afterwards.
  lemma MembersKeepReport(fields: map<string, Json>)
    requires forall k :: k in fields ==> Project(fields[k]).Ok?
    ensures IsReport(Members(fields)) == IsReport(fields) && Deleted(Members(fields)) == Deleted(fields)
    ensures ID in fields ==> (Members(fields)[ID].Str? <==> Plain(fields[ID]).Str?)
  {
    if ID in fields {
      ProjectKeepsTop(fields[ID]);
    }
    if STATUS in fields {
      ProjectKeepsTop(fields[STATUS]);
    }
  }

  // --- Main results ---

  /** The projection raises exactly when some live report's identifier is not text. */
  lemma {:induction false} RaisesIff(v: Json)
    ensures Project(v).TypeError? <==> Unquotable(v)
  {
    match v
    case Model(dump) => RaisesIff(dump);
    case List(items) =>
      forall i | 0 <= i < |items| ensures Project(items[i]).TypeError? <==> Unquotable(items[i]) {
        RaisesIff(items[i]);
      }
    case Dict(fields) =>
      forall k | k in fields ensures Project(fields[k]).TypeError? <==> Unquotable(fields[k]) {
        RaisesIff(fields[k]);
      }
      if forall k :: k in fields ==> Project(fields[k]).Ok? {
        MembersKeepReport(fields);
        assert Project(v) == Refer(Members(fields));
      }
    case _ =>
  }

  /** A projected response is public, and differs from the stored one in the references of its reports alone. */
  lemma {:induction false} ProjectIsPublic(v: Json)
    requires Project(v).Ok?
    ensures Public(Project(v).value) && SameButReferences(v, Project(v).value)
  {
    match v
    case Model(dump) => ProjectIsPublic(dump);
    case List(items) =>
      forall i | 0 <= i < |items|
        ensures Public(Project(items[i]).value) && SameButReferences(items[i], Project(items[i]).value)
      {
        ProjectIsPublic(items[i]);
      }
    case Dict(fields) =>
      forall k | k in fields
        ensures Public(Project(fields[k]).value) && SameButReferences(fields[k], Project(fields[k]).value)
      {
        ProjectIsPublic(fields[k]);
      }
      ReferIsPublic(fields);
    case _ =>
  }

  lemma ReferIsPublic(fields: map<string, Json>)
    requires forall k :: k in fields ==>
               && Project(fields[k]).Ok? && Public(Project(fields[k]).value)
               && SameButReferences(fields[k], Project(fields[k]).value)
    requires Refer(Members(fields)).Ok?
    ensures Public(Refer(Members(fields)).value) && SameButReferences(Dict(fields), Refer(Members(fields)).value)
  {
    var members := Members(fields);
    forall k | k in members ensures Public(members[k]) && SameButReferences(fields[k], members[k]) {
    }
    assert members.Keys == fields.Keys;
    hide Project, Members;
    ReferMakesPublic(members);
    ReferChangesReferences(fields, members);
  }

  lemma ReferMakesPublic(members: map<string, Json>)
    requires Refer(members).Ok? && forall k :: k in members ==> Public(members[k])
    ensures Public(Refer(members).value)
  {
    hide Truthy;
    var w := Refer(members).value;
    if IsReport(members) {
      assert Referred(w.fields);
    }
  }

  lemma ReferChangesReferences(fields: map<string, Json>, members: map<string, Json>)
    requires Refer(members).Ok? && members.Keys == fields.Keys
    requires forall k :: k in fields ==> SameButReferences(fields[k], members[k])
    ensures SameButReferences(Dict(fields), Refer(members).value)
  {
    hide Truthy, Deleted;
    var w := Refer(members).value;
    if IsReport(members) {
      assert w.fields.Keys == fields.Keys + {DOWNLOAD};
      assert IsReport(w.fields);
    }
  }

  lemma ReferIsOnlyPublic(members: map<string, Json>, fields: map<string, Json>)
    requires Refer(members).Ok? && (IsReport(fields) ==> Referred(fields))
    requires fields.Keys == members.Keys || (IsReport(fields) && fields.Keys == members.Keys + {DOWNLOAD})
    requires forall k :: k in members && !(IsReport(fields) && k in {VIEW, DOWNLOAD}) ==> members[k] == fields[k]
    ensures Refer(members) == Ok(Dict(fields))
  {
    if IsReport(fields) {
      assert Deleted(members) == Deleted(fields);
      assert Refer(members).value.fields == fields;
    } else {
      assert members == fields;
    }
  }

  /** Nothing else is: a public response that agrees with the stored one outside references is its projection. */
  lemma {:induction false} ProjectIsOnlyPublic(v: Json, w: Json)
    requires Project(v).Ok? && Public(w) && SameButReferences(v, w)
    ensures Project(v) == Ok(w)
    decreases v
  {
    match v
    case Model(dump) => ProjectIsOnlyPublic(dump, w);
    case List(items) =>
      forall i | 0 <= i < |items| ensures Project(items[i]).value == w.items[i] {
        ProjectIsOnlyPublic(items[i], w.items[i]);
      }
      assert Project(v).value.items == w.items;
    case Dict(fields) =>
      forall k | k in fields && !(IsReport(w.fields) && k in {VIEW, DOWNLOAD})
        ensures Project(fields[k]).value == w.fields[k]
      {
        ProjectIsOnlyPublic(fields[k], w.fields[k]);
      }
      assert Members(fields).Keys == fields.Keys;
      assert Project(v) == Refer(Members(fields));
      ReferIsOnlyPublic(Members(fields), w.fields);
    case _ =>
  }

  /** The whole result: which response comes back for a stored one, and when there is none. */
  lemma ProjectIff(v: Json, w: Json)
    ensures Project(v) == Ok(w) <==> !Unquotable(v) && Public(w) && SameButReferences(v, w)
  {
    RaisesIff(v);
    if Project(v).Ok? {
      ProjectIsPublic(v);
      if Public(w) && SameButReferences(v, w) {
        ProjectIsOnlyPublic(v, w);
      }
    }
  }

  /** A second projection changes nothing. */
  lemma ProjectIsIdempotent(v: Json)
    requires Project(v).Ok?
    ensures Project(Project(v).value) == Project(v)
  {
    ProjectIsPublic(v);
    PublicIsFixed(Project(v).value);
  }

  lemma {:induction false} PublicIsFixed(w: Json)
    requires Public(w)
    ensures Project(w) == Ok(w)
  {
    match w
    case List(items) =>
      forall i | 0 <= i < |items| ensures Project(items[i]) == Ok(items[i]) {
        PublicIsFixed(items[i]);
      }
      assert Project(w).value.items == items;
    case Dict(fields) =>
      forall k | k in fields ensures Project(fields[k]) == Ok(fields[k]) {
        PublicIsFixed(fields[k]);
      }
      assert Members(fields) == fields;
      assert Project(w) == Refer(fields);
      if IsReport(fields) {
        assert fields[VIEW := fields[VIEW]][DOWNLOAD := fields[DOWNLOAD]] == fields;
      }
    case _ =>
  }

  /** Different reports have different paths, and no report's page is another's file. */
  lemma PathsAreDistinct(a: string, b: string)
    ensures a != b ==> ViewPath(a) != ViewPath(b) && DownloadPath(a) != DownloadPath(b)
    ensures ViewPath(a) != DownloadPath(b)
  {
    var root := "/api/v1/cloud/reports/";
    var qa, qb, suffix := Quote(a), Quote(b), "/download";
    if qa == qb {
      QuoteInjective(a, b);
    }
    assert ViewPath(a)[|root|..] == qa && ViewPath(b)[|root|..] == qb;
    if DownloadPath(a) == DownloadPath(b) {
      assert DownloadPath(a)[..|ViewPath(a)|] == ViewPath(a);
      assert DownloadPath(b)[..|ViewPath(b)|] == ViewPath(b);
    }
    QuoteBytesHasNoSlash(Utf8String(a));
    assert DownloadPath(b)[|root| + |qb|] == suffix[0] == '/';
    if |qa| > |qb| {
      assert ViewPath(a)[|root| + |qb|] == qa[|qb|];
    }
  }
}
