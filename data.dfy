/** The values the audit reads from the GitHub GraphQL service, and the two
    mutable collections (`members_dict`, `list_of_repos`) it fills in. */
module GitHubData {

  datatype Option<+T> = None | Some(value: T)

  /** An opaque pagination cursor handed out by the service. */
  type Cursor = string

  /** The `pageInfo` object of a connection. */
  datatype PageInfo = PageInfo(endCursor: Option<Cursor>, hasNextPage: bool)

  /** One `membersWithRole` edge: the member's login and display name (null when unset). */
  datatype MemberEdge = MemberEdge(login: string, name: Option<string>)

  /** One collaborator edge of a repository: who, and at which permission level. */
  datatype Collaborator = Collaborator(login: string, permission: string)

  /** The `collaborators` field of a repository node: null, an object without
      an `edges` key, or an object holding the list of edges. */
  datatype Collaborators = NullCollaborators | NoEdges | Edges(edges: seq<Collaborator>)

  /** One `repositories` edge, kept raw until it is joined with the members. */
  datatype RepoEdge = RepoEdge(name: string, isArchived: bool, collaborators: Collaborators)

  /** One reply of the paged service: the reported size of the whole collection,
      the page's edges (None when the reply has no `edges` key) and the cursor state. */
  datatype Page<E> = Page(totalCount: int, edges: Option<seq<E>>, pageInfo: PageInfo)

  /** The fatal errors of a traversal: the service call failed, the reply had
      no `edges` key where the code does not catch that, or the count check failed. */
  datatype Error = Transport | MissingEdges | CountMismatch(accumulated: nat, reported: int)

  datatype Result<+T> = Ok(value: T) | Err(error: Error)

  /** A member record: one flat string-keyed dictionary holding `login`, `name`
      and then one key per repository heading; None stands for a null value. */
  type Record = map<string, Option<string>>

  /** The dictionary `members_dict`, keyed by login, that the caller owns and
      the traversal and the join update in place. */
  class MemberTable {
    var entries: map<string, Record>

    constructor ()
      ensures entries == map[]
    {
      entries := map[];
    }
  }

  /** The list `list_of_repos` that the caller owns and the repository traversal extends. */
  class RepoList {
    var items: seq<RepoEdge>

    constructor ()
      ensures items == []
    {
      items := [];
    }
  }
}
