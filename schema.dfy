/** The six importer classes as data: per class, its name (which is also
    the table name), the ordered attribute map (source attribute ->
    destination column), the default parameters and the optional lookup. */
module Schema {
  import opened Values
  import opened Sql

  datatype EntityType = Users | Badges | Posts | Posthistory | Comments | Votes

  /** A `$lookup` entry: the source attribute holding the text and the
      base name of the side table (the table is this name plus "s"). */
  datatype LookupSpec = LookupSpec(attribute: string, name: string)

  /** What one importer class declares: `get_class`, `$attr` in declaration
      order, `$defaultParams` and `$lookup`. */
  datatype Mapping = Mapping(
    className: string,
    attr: seq<(string, string)>,
    defaults: map<string, string>,
    lookup: Option<LookupSpec>)

  function MappingOf(e: EntityType): Mapping {
    match e
    case Users => Mapping("Users",
      [
        ("Id", "UserId"), ("Reputation", "Reputation"), ("CreationDate", "CreationDate"),
        ("DisplayName", "DisplayName"), ("LastAccessDate", "LastAccessDate"),
        ("WebsiteUrl", "WebsiteUrl"), ("Location", "Location"), ("Age", "Age"),
        ("AboutMe", "AboutMe"), ("Views", "Views"), ("UpVotes", "UpVotes"),
        ("DownVotes", "DownVotes")],
      map["Reputation" := "1", "DisplayName" := "", "Views" := "0",
                        "UpVotes" := "0", "DownVotes" := "0"],
      None)
    case Badges => Mapping("Badges",
      [
        ("Id", "BadgeId"), ("BadgeTypeId", "BadgeTypeId"), ("UserId", "UserId"),
        ("Date", "CreationDate")],
      map[],
      Some(LookupSpec("Name", "BadgeType")))
    case Posts => Mapping("Posts",
      [
        ("Id", "PostId"), ("PostTypeId", "PostTypeId"), ("AcceptedAnswerId", "AcceptedAnswerId"),
        ("ParentId", "ParentId"), ("CreationDate", "CreationDate"), ("Score", "Score"),
        ("ViewCount", "ViewCount"), ("Body", "Body"), ("OwnerUserId", "OwnerUserId"),
        ("OwnerDisplayName", "OwnerDisplayName"), ("LastEditorUserId", "LastEditorUserId"),
        ("LastEditDate", "LastEditDate"), ("LastActivityDate", "LastActivityDate"),
        ("Title", "Title"), ("Tags", "Tags"), ("AnswerCount", "AnswerCount"),
        ("CommentCount", "CommentCount"), ("FavoriteCount", "FavoriteCount"),
        ("ClosedDate", "ClosedDate")],
      map["Score" := "0", "ViewCount" := "0", "Body" := "", "OwnerDisplayName" := "",
                        "Title" := "", "Tags" := "", "AnswerCount" := "0", "CommentCount" := "0",
                        "FavoriteCount" := "0"],
      None)
    case Posthistory => Mapping("Posthistory",
      [
        ("Id", "PostHistoryId"), ("PostHistoryTypeId", "PostHistoryTypeId"), ("PostId", "PostId"),
        ("RevisionGUID", "RevisionGUID"), ("CreationDate", "CreationDate"), ("UserId", "UserId"),
        ("UserDisplayName", "UserDisplayName"), ("Comment", "Comment"), ("Text", "Text"),
        ("CloseReasonId", "CloseReasonId")],
      map["UserDisplayName" := "N/A"],
      None)
    case Comments => Mapping("Comments",
      [
        ("Id", "CommentId"), ("PostId", "PostId"), ("UserId", "UserId"), ("Text", "Text"),
        ("CreationDate", "CreationDate")],
      map["UserId" := "-1"],
      None)
    case Votes => Mapping("Votes",
      [
        ("Id", "VoteId"), ("PostId", "PostId"), ("VoteTypeId", "VoteTypeId"),
        ("CreationDate", "CreationDate"), ("UserId", "UserId")],
      map[],
      None)
  }

  /** `$lookupKey`: the destination column that receives the lookup id. */
  function LookupKey(spec: LookupSpec): string {
    spec.name + "Id"
  }

  /** `array_keys($this->attr)`. */
  function Sources(m: Mapping): (srcs: seq<string>)
  {
    seq(|m.attr|, k requires 0 <= k < |m.attr| => m.attr[k].0)
  }

  /** `array_values($this->attr)`: the destination columns in order. */
  function Columns(m: Mapping): (cols: seq<string>)
    ensures |cols| == |m.attr|
    ensures forall k :: 0 <= k < |cols| ==> cols[k] == m.attr[k].1
  {
    seq(|m.attr|, k requires 0 <= k < |m.attr| => m.attr[k].1)
  }

  predicate Distinct(s: seq<string>) {
    forall a, b :: 0 <= a < b < |s| ==> s[a] != s[b]
  }

  /** What the importer relies on of its class data: distinct source
      keys (a PHP array) and distinct destination columns (array_combine
      would otherwise collapse two parameters into one), and defaults and
      the lookup key only on mapped columns. */
  predicate WellFormed(m: Mapping) {
    && |m.attr| > 0
    && Distinct(Sources(m))
    && Distinct(Columns(m))
    && (forall c :: c in m.defaults ==> c in Columns(m))
    && (m.lookup.Some? ==> LookupKey(m.lookup.value) in Columns(m))
  }

  lemma AllWellFormed(e: EntityType)
    ensures WellFormed(MappingOf(e))
  {
    match e {
      case Users => UsersWellFormed();
      case Badges => BadgesWellFormed();
      case Posts => PostsWellFormed();
      case Posthistory => PosthistoryWellFormed();
      case Comments => CommentsWellFormed();
      case Votes => VotesWellFormed();
    }
  }

  lemma UsersWellFormed()
    ensures WellFormed(MappingOf(Users))
  {
    UsersSources();
    UsersColumns();
    UsersDistinctSources();
    UsersDistinctColumns();
  }

  lemma UsersSources()
    ensures Sources(MappingOf(Users)) == [
          "Id", "Reputation", "CreationDate", "DisplayName", "LastAccessDate", "WebsiteUrl",
          "Location", "Age", "AboutMe", "Views", "UpVotes", "DownVotes"]
  {
  }

  lemma UsersColumns()
    ensures Columns(MappingOf(Users)) == [
          "UserId", "Reputation", "CreationDate", "DisplayName", "LastAccessDate", "WebsiteUrl",
          "Location", "Age", "AboutMe", "Views", "UpVotes", "DownVotes"]
  {
  }

  lemma UsersDistinctSources()
    ensures Distinct([
          "Id", "Reputation", "CreationDate", "DisplayName", "LastAccessDate", "WebsiteUrl",
          "Location", "Age", "AboutMe", "Views", "UpVotes", "DownVotes"])
  {
  }

  lemma UsersDistinctColumns()
    ensures Distinct([
          "UserId", "Reputation", "CreationDate", "DisplayName", "LastAccessDate", "WebsiteUrl",
          "Location", "Age", "AboutMe", "Views", "UpVotes", "DownVotes"])
  {
  }

  lemma BadgesWellFormed()
    ensures WellFormed(MappingOf(Badges))
  {
    BadgesSources();
    BadgesColumns();
    BadgesDistinctSources();
    BadgesDistinctColumns();
    assert LookupKey(MappingOf(Badges).lookup.value) == "BadgeTypeId";
  }

  lemma BadgesSources()
    ensures Sources(MappingOf(Badges)) == [
          "Id", "BadgeTypeId", "UserId", "Date"]
  {
  }

  lemma BadgesColumns()
    ensures Columns(MappingOf(Badges)) == [
          "BadgeId", "BadgeTypeId", "UserId", "CreationDate"]
  {
  }

  lemma BadgesDistinctSources()
    ensures Distinct([
          "Id", "BadgeTypeId", "UserId", "Date"])
  {
  }

  lemma BadgesDistinctColumns()
    ensures Distinct([
          "BadgeId", "BadgeTypeId", "UserId", "CreationDate"])
  {
  }

  lemma PostsWellFormed()
    ensures WellFormed(MappingOf(Posts))
  {
    PostsSources();
    PostsColumns();
    PostsDistinctSources();
    PostsDistinctColumns();
  }

  lemma PostsSources()
    ensures Sources(MappingOf(Posts)) == [
          "Id", "PostTypeId", "AcceptedAnswerId", "ParentId", "CreationDate", "Score", "ViewCount",
          "Body", "OwnerUserId", "OwnerDisplayName", "LastEditorUserId", "LastEditDate",
          "LastActivityDate", "Title", "Tags", "AnswerCount", "CommentCount", "FavoriteCount",
          "ClosedDate"]
  {
  }

  lemma PostsColumns()
    ensures Columns(MappingOf(Posts)) == [
          "PostId", "PostTypeId", "AcceptedAnswerId", "ParentId", "CreationDate", "Score",
          "ViewCount", "Body", "OwnerUserId", "OwnerDisplayName", "LastEditorUserId", "LastEditDate",
          "LastActivityDate", "Title", "Tags", "AnswerCount", "CommentCount", "FavoriteCount",
          "ClosedDate"]
  {
  }

  lemma PostsDistinctSources()
    ensures Distinct([
          "Id", "PostTypeId", "AcceptedAnswerId", "ParentId", "CreationDate", "Score", "ViewCount",
          "Body", "OwnerUserId", "OwnerDisplayName", "LastEditorUserId", "LastEditDate",
          "LastActivityDate", "Title", "Tags", "AnswerCount", "CommentCount", "FavoriteCount",
          "ClosedDate"])
  {
  }

  lemma PostsDistinctColumns()
    ensures Distinct([
          "PostId", "PostTypeId", "AcceptedAnswerId", "ParentId", "CreationDate", "Score",
          "ViewCount", "Body", "OwnerUserId", "OwnerDisplayName", "LastEditorUserId", "LastEditDate",
          "LastActivityDate", "Title", "Tags", "AnswerCount", "CommentCount", "FavoriteCount",
          "ClosedDate"])
  {
  }

  lemma PosthistoryWellFormed()
    ensures WellFormed(MappingOf(Posthistory))
  {
    PosthistorySources();
    PosthistoryColumns();
    PosthistoryDistinctSources();
    PosthistoryDistinctColumns();
  }

  lemma PosthistorySources()
    ensures Sources(MappingOf(Posthistory)) == [
          "Id", "PostHistoryTypeId", "PostId", "RevisionGUID", "CreationDate", "UserId",
          "UserDisplayName", "Comment", "Text", "CloseReasonId"]
  {
  }

  lemma PosthistoryColumns()
    ensures Columns(MappingOf(Posthistory)) == [
          "PostHistoryId", "PostHistoryTypeId", "PostId", "RevisionGUID", "CreationDate", "UserId",
          "UserDisplayName", "Comment", "Text", "CloseReasonId"]
  {
  }

  lemma PosthistoryDistinctSources()
    ensures Distinct([
          "Id", "PostHistoryTypeId", "PostId", "RevisionGUID", "CreationDate", "UserId",
          "UserDisplayName", "Comment", "Text", "CloseReasonId"])
  {
  }

  lemma PosthistoryDistinctColumns()
    ensures Distinct([
          "PostHistoryId", "PostHistoryTypeId", "PostId", "RevisionGUID", "CreationDate", "UserId",
          "UserDisplayName", "Comment", "Text", "CloseReasonId"])
  {
  }

  lemma CommentsWellFormed()
    ensures WellFormed(MappingOf(Comments))
  {
    CommentsSources();
    CommentsColumns();
    CommentsDistinctSources();
    CommentsDistinctColumns();
  }

  lemma CommentsSources()
    ensures Sources(MappingOf(Comments)) == [
          "Id", "PostId", "UserId", "Text", "CreationDate"]
  {
  }

  lemma CommentsColumns()
    ensures Columns(MappingOf(Comments)) == [
          "CommentId", "PostId", "UserId", "Text", "CreationDate"]
  {
  }

  lemma CommentsDistinctSources()
    ensures Distinct([
          "Id", "PostId", "UserId", "Text", "CreationDate"])
  {
  }

  lemma CommentsDistinctColumns()
    ensures Distinct([
          "CommentId", "PostId", "UserId", "Text", "CreationDate"])
  {
  }

  lemma VotesWellFormed()
    ensures WellFormed(MappingOf(Votes))
  {
    VotesSources();
    VotesColumns();
    VotesDistinctSources();
    VotesDistinctColumns();
  }

  lemma VotesSources()
    ensures Sources(MappingOf(Votes)) == [
          "Id", "PostId", "VoteTypeId", "CreationDate", "UserId"]
  {
  }

  lemma VotesColumns()
    ensures Columns(MappingOf(Votes)) == [
          "VoteId", "PostId", "VoteTypeId", "CreationDate", "UserId"]
  {
  }

  lemma VotesDistinctSources()
    ensures Distinct([
          "Id", "PostId", "VoteTypeId", "CreationDate", "UserId"])
  {
  }

  lemma VotesDistinctColumns()
    ensures Distinct([
          "VoteId", "PostId", "VoteTypeId", "CreationDate", "UserId"])
  {
  }

  /** The sizes of the six attribute maps; Posts maps 19 attributes. */
  lemma SchemaSizes()
    ensures |MappingOf(Users).attr| == 12 && |MappingOf(Badges).attr| == 4
    ensures |MappingOf(Posts).attr| == 19 && |MappingOf(Posthistory).attr| == 10
    ensures |MappingOf(Comments).attr| == 5 && |MappingOf(Votes).attr| == 5
  {
  }

  /** The insert prepared for a class reads back as its table, its columns
      in order and their placeholders. */
  predicate ReadsBack(m: Mapping) {
    ParseInsert(InsertSql(m.className, Columns(m))) == Some(InsertStatement(m.className, Columns(m), Placeholders(Columns(m))))
  }

  /** Every class's insert reads back: its table and column names are words. */
  lemma AllReadBack(e: EntityType)
    ensures ReadsBack(MappingOf(e))
  {
    var m := MappingOf(e);
    match e {
      case Users => UsersWords();
      case Badges => BadgesWords();
      case Posts => PostsWords();
      case Posthistory => PosthistoryWords();
      case Comments => CommentsWords();
      case Votes => VotesWords();
    }
    InsertRoundTrip(m.className, Columns(m));
  }

  lemma UsersWords1()
    ensures Word("UserId") && Word("Reputation") && Word("CreationDate") && Word("DisplayName") && Word("LastAccessDate") && Word("WebsiteUrl")
  {
  }

  lemma UsersWords2()
    ensures Word("Location") && Word("Age") && Word("AboutMe") && Word("Views") && Word("UpVotes") && Word("DownVotes")
  {
  }

  lemma UsersWords()
    ensures Word(MappingOf(Users).className)
    ensures forall k :: 0 <= k < |Columns(MappingOf(Users))| ==> Word(Columns(MappingOf(Users))[k])
  {
    UsersColumns();
    UsersWords1();
    UsersWords2();
  }

  lemma BadgesWords1()
    ensures Word("BadgeId") && Word("BadgeTypeId") && Word("UserId") && Word("CreationDate")
  {
  }

  lemma BadgesWords()
    ensures Word(MappingOf(Badges).className) && Word(MappingOf(Badges).lookup.value.name)
    ensures forall k :: 0 <= k < |Columns(MappingOf(Badges))| ==> Word(Columns(MappingOf(Badges))[k])
  {
    BadgesColumns();
    BadgesWords1();
  }

  lemma PostsWords1()
    ensures Word("PostId") && Word("PostTypeId") && Word("AcceptedAnswerId") && Word("ParentId") && Word("CreationDate") && Word("Score")
  {
  }

  lemma PostsWords2()
    ensures Word("ViewCount") && Word("Body") && Word("OwnerUserId") && Word("OwnerDisplayName") && Word("LastEditorUserId") && Word("LastEditDate")
  {
  }

  lemma PostsWords3()
    ensures Word("LastActivityDate") && Word("Title") && Word("Tags") && Word("AnswerCount") && Word("CommentCount") && Word("FavoriteCount")
  {
  }

  lemma PostsWords4()
    ensures Word("ClosedDate")
  {
  }

  lemma PostsWords()
    ensures Word(MappingOf(Posts).className)
    ensures forall k :: 0 <= k < |Columns(MappingOf(Posts))| ==> Word(Columns(MappingOf(Posts))[k])
  {
    PostsColumns();
    PostsWords1();
    PostsWords2();
    PostsWords3();
    PostsWords4();
  }

  lemma PosthistoryWords1()
    ensures Word("PostHistoryId") && Word("PostHistoryTypeId") && Word("PostId") && Word("RevisionGUID") && Word("CreationDate") && Word("UserId")
  {
  }

  lemma PosthistoryWords2()
    ensures Word("UserDisplayName") && Word("Comment") && Word("Text") && Word("CloseReasonId")
  {
  }

  lemma PosthistoryWords()
    ensures Word(MappingOf(Posthistory).className)
    ensures forall k :: 0 <= k < |Columns(MappingOf(Posthistory))| ==> Word(Columns(MappingOf(Posthistory))[k])
  {
    PosthistoryColumns();
    PosthistoryWords1();
    PosthistoryWords2();
  }

  lemma CommentsWords1()
    ensures Word("CommentId") && Word("PostId") && Word("UserId") && Word("Text") && Word("CreationDate")
  {
  }

  lemma CommentsWords()
    ensures Word(MappingOf(Comments).className)
    ensures forall k :: 0 <= k < |Columns(MappingOf(Comments))| ==> Word(Columns(MappingOf(Comments))[k])
  {
    CommentsColumns();
    CommentsWords1();
  }

  lemma VotesWords1()
    ensures Word("VoteId") && Word("PostId") && Word("VoteTypeId") && Word("CreationDate") && Word("UserId")
  {
  }

  lemma VotesWords()
    ensures Word(MappingOf(Votes).className)
    ensures forall k :: 0 <= k < |Columns(MappingOf(Votes))| ==> Word(Columns(MappingOf(Votes))[k])
  {
    VotesColumns();
    VotesWords1();
  }

  /** The Badges side-table insert reads back as the table BadgeTypes with
      the column Description. */
  lemma BadgesLookupReadsBack()
    ensures var name := MappingOf(Badges).lookup.value.name;
      ParseInsert(LookupInsertSql(name)) == Some(InsertStatement(name + "s", ["Description"], [":Description"]))
  {
    BadgesWords();
    LookupInsertShape(MappingOf(Badges).lookup.value.name);
  }
}
