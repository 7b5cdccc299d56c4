# github-collaborator-audit in Dafny

The audit tool lists every member of a GitHub organization and every repository
with its collaborators. It joins the two into one record per member, holding
the member's permission on each repository, and writes the records as a CSV
matrix. This project models the in-memory part of `main.py`:

- **Member traversal** (`get_members` and `add_member_data`, module `Members`).
  Cursor-paginated requests fill the caller's `members_dict`, keyed by login.
  A repeated login overwrites the earlier entry. The number of keys is then
  checked against the `totalCount` of the last page.
- **Repository traversal** (`get_repos_and_perms`, module `Repos`). The same
  loop appends each page's edges to the caller's `list_of_repos`. A page after
  the first whose reply has no `edges` key is skipped. The list length is
  checked against the last page's `totalCount`.
- **Join** (`process_repo_list`, module `Aggregate`). Each repository gives one
  column heading: its name, or `name(ARCHIVED)` when archived. Each
  collaborator whose login is a member key gets that heading set to its
  permission in the member's record. Other logins are dropped.
- **Row preparation** (the flatten and sort block of the entry point, module
  `Report`). The records are flattened into a list and sorted by case-folded
  login. The column list is `login`, `name`, then the headings.

Module `GitHubData` holds the values read from the service. It also holds the
two caller-owned collections, as classes updated in place: `MemberTable` for
`members_dict` and `RepoList` for `list_of_repos`. Module `Paging` holds what
both traversals share. Module `Audit` connects the stages: `AuditRun` chains
them as the entry point does, and a two-member organization is worked through.

The remote service is abstract. A traversal receives `replies`, the sequence of
replies the service gives: request k is answered by `replies[k]`. A request
with no reply left stands for a failed call (`graphql_call` raising). Each
traversal also returns `requests`, the cursor sent with each request. This
output does not exist in the source; it lets the contract say how cursors are
threaded. A reply is a `Page`: `totalCount`, the edges (absent when the reply
has no `edges` key) and `pageInfo`.

Each traversal is a method proved equal to a specification function
`Traverse`. That function follows the replies one request at a time and yields
a `Run`: the cursors sent, the collection afterwards and the outcome. Lemmas
about `Traverse` state the traversal's properties. They cover how cursors are
threaded, how the traversal ends, and what the collection then holds.

A member record is a flat `map<string, Option<string>>`, the way the source
holds it as one string-keyed dict (`None` stands for a null name). So a
repository headed `login` or `name` overwrites that field of the record
(`Aggregate.HeadingOverwritesLogin`).

The model follows the code on these points, where a reader might expect otherwise:

- The CSV columns take the headings unsorted. The sorted copy at `main.py:311`
  is never used (see Findings).
- The skip on a missing key drops a whole page's edges, and only on pages after
  the first. It does not drop single items. A first reply without `edges` is
  fatal.
- Headings are not deduplicated. Two repositories with the same heading give
  two equal headings.
- Both count checks compare against the last page's `totalCount`. The member
  check counts distinct keys and the repository check counts list entries. Both
  counts include whatever the caller's collection already held.

## Model

| member | source | states |
|---|---|---|
| `GitHubData.MemberTable.constructor` | main.py:300 | the run starts from an empty `members_dict` |
| `GitHubData.RepoList.constructor` | main.py:304 | the run starts from an empty `list_of_repos` |
| `Members.AddMemberData` | main.py:37-39 | the dictionary afterwards is the old one with each edge's `{'login', 'name'}` record written under its login, in edge order |
| `Members.AddEdgesKeys` | main.py:37-39 | writing edges adds exactly their logins as keys; the entry of any login not among them is unchanged |
| `Members.AddEdgesLastWins` | main.py:37-39 | a login's entry is the record of the last edge that carries it (last write wins, `name` from that edge) |
| `Members.AddEdgesAppend` | main.py:62-98 | writing page after page equals writing the concatenation of their edges once |
| `Members.Traverse` | main.py:62-105 | a traversal sends at least one request and at most one more than there are replies; the first request carries the starting cursor |
| `Members.TraverseRequests` | main.py:66-98 | request i+1 is sent only after reply i had `edges` and `hasNextPage`, and it carries reply i's `endCursor` |
| `Members.TraverseStops` | main.py:63-103 | a request with no reply left ends in a transport error, and a reply without `edges` in a missing-key error; otherwise the last reply has no next page and the outcome is the count check of the dictionary against that reply's `totalCount` |
| `Members.TraverseTransport` | main.py:63-96 | after a failed call the dictionary is the caller's with the edges of every reply written in, in fetch order |
| `Members.TraverseMissing` | main.py:66-96 | after a reply without `edges` the dictionary holds the edges of exactly the replies before it |
| `Members.TraverseComplete` | main.py:66-98 | a traversal that reaches the count check leaves the edges of every fetched reply written into the dictionary |
| `Members.GetMembers` | main.py:22-105 | the cursors sent, the dictionary afterwards and the outcome are those of `Members.Traverse` started with no cursor from the caller's dictionary |
| `Paging.CheckCount` | main.py:100-105 | the check fails iff the accumulated count differs from the reported total, naming both numbers; otherwise it returns the count |
| `Paging.AllEdgesAppend` | main.py:154-204 | the edges of consecutive runs of pages are the concatenation of their edges, in fetch order |
| `Paging.AllEdgesSkipsMissing` | main.py:198-201 | a page without an `edges` key contributes nothing; the pages around it contribute exactly what they would without it |
| `Repos.Traverse` | main.py:150-211 | a traversal sends at least one request and at most one more than there are replies; the first request carries the starting cursor |
| `Repos.TraverseRequests` | main.py:154-204 | request i+1 is sent only after reply i had `hasNextPage`, and it carries reply i's `endCursor`; a second request follows only a first reply with `edges` |
| `Repos.TraverseStops` | main.py:151-209 | a request with no reply left ends in a transport error; a first reply without `edges` ends in a missing-key error after one request, with the list unchanged; otherwise the last reply has no next page and the outcome is the count check of the list length against that reply's `totalCount` |
| `Repos.TraverseTransport` | main.py:154-201 | after a failed call the list is the caller's items followed by the edges of every reply in fetch order, later replies without `edges` contributing nothing |
| `Repos.TraverseComplete` | main.py:154-204 | a traversal that reaches the count check leaves the caller's items followed by the edges of every fetched reply, later replies without `edges` contributing nothing |
| `Repos.GetReposAndPerms` | main.py:108-211 | the cursors sent, the list afterwards and the outcome are those of `Repos.Traverse` started with no cursor, on the first request, from the caller's list |
| `Aggregate.ProcessRepoList` | main.py:214-248 | one heading per repository in input order (duplicates kept), each `name` or `name(ARCHIVED)`; the member map becomes the join of the old map with the repositories |
| `Aggregate.LastIn` | main.py:238-244 | among one repository's collaborator edges, the permission of the last edge with a login: absent iff no edge carries that login, otherwise the permission of an edge with no later edge for that login |
| `Aggregate.JoinCollaboratorsKeys` | main.py:238-246 | joining one repository adds and removes no member |
| `Aggregate.JoinKeys` | main.py:229-246 | the join leaves the set of member logins unchanged |
| `Aggregate.UnknownCollaboratorIgnored` | main.py:243-246 | a collaborator edge whose login is not a member changes nothing |
| `Aggregate.JoinCollaboratorsCell` | main.py:237-244 | after one repository, a member's cell under its heading is the permission of the member's last edge there; every other cell is unchanged |
| `Aggregate.JoinCell` | main.py:229-246 | after the join, a member's cell under heading h holds the permission of the last collaborator edge with its login among the repositories headed h; with no such edge the cell is as it was |
| `Aggregate.NoEdgesNoCells` | main.py:237 | a repository whose `collaborators` is null or has no `edges` writes no cell |
| `Aggregate.ArchivedHeadingDistinct` | main.py:230-233 | an archived repository's heading differs from that of an unarchived repository with the same name |
| `Aggregate.HeadingOverwritesLogin` | main.py:244 | when a repository is headed `login`, the member's own `login` field is replaced by its permission there |
| `Report.SortBySorted` | main.py:324-326 | the sort returns a permutation of its input, in non-decreasing order of the key |
| `Report.Flatten` | main.py:320-322 | the flattened list holds each member's record exactly once, one per key |
| `Report.SortedRows` | main.py:320-326 | the rows are a permutation of the records, one per member, in non-decreasing order of case-folded `login` |
| `Report.PrepareReport` | main.py:310-326 | as written: the columns are `login`, `name`, then the headings unsorted; the rows are the records sorted by case-folded login |
| `Report.UnsortedColumnsWitness` | main.py:310-314 | for the headings `b`, `A` the written CSV header is not in case-insensitive order |
| `Report.PrepareSortedReport` | main.py:310-314 | as intended: the columns after `login`, `name` are a permutation of the headings in case-insensitive order; rows as above |
| `Audit.AddEdgesLoginFields` | main.py:39 | after the member traversal, every record's `login` field equals its key |
| `Audit.NoLoginHeadingNoLoginCell` | main.py:244 | with no repository headed `login`, no cell under `login` is written |
| `Audit.JoinKeepsLoginPresent` | main.py:244 | the join writes only strings, so every record keeps a string `login` field and the row sort key is defined |
| `Audit.JoinKeepsLoginFields` | main.py:244 | unless a repository is headed `login`, every record's `login` field still equals its key after the join |
| `Audit.TraverseLoginFields` | main.py:37-39 | if every record's `login` field equals its key before a member traversal, it still does afterwards, whatever the outcome |
| `Audit.ScenarioHeader` | main.py:230-235 | for a live repository `core` and an archived `old`, the header is `login,name,core,old(ARCHIVED)` |
| `Audit.TwoMemberScenario` | main.py:300-326 | members alice and bob, live repository `core` (alice ADMIN) and archived `old` (bob READ): alice's record gets `core`=ADMIN, bob's gets `old(ARCHIVED)`=READ, the header is `login,name,core,old(ARCHIVED)`, and the rows sort alice before bob in either input order |
| `Audit.AuditRun` | main.py:299-326 | the entry point from an empty dictionary and an empty list: a failed member traversal ends the run with its error and no report; so does a failed repository traversal after it; otherwise the columns are `login`, `name`, then one heading per repository in list order, and the rows are the joined records, one per member, sorted by case-folded login |

## Left out

- `graphql_call`, `get_graphql_client`, `GraphqlClient` and `HTTPError` are network and foreign-library code. The service is the `replies` sequence, and every transport failure is one request with no reply left.
- The GraphQL query texts and the page size `pages_to_get` are opaque to the model. They are only handed to the service.
- Reading the `GITHUB_ACCESS_TOKEN` environment variable is process I/O. In the source a missing token raises before any request. Reading `argv` is also process I/O: a missing organization prints usage and exits with status 0.
- `generate_csv_file` and `csv.DictWriter` are file I/O and library quoting. The model stops at the columns and rows handed to the writer.
- `DEBUG` output and the progress and summary `print`s are side effects with no behavioural content.
- Replies malformed other than by a missing `edges` key are not modelled. Examples are a missing `data` or `pageInfo`, or a null `edges`. The source fails on these with an uncaught exception.
- The repository `name` is modelled as a string. The service schema makes it non-null, so the `None(ARCHIVED)` heading a null name would give is not modelled.
- `str.casefold` is modelled as ASCII lower-casing. Unicode case folding is not modelled.
- Dictionary insertion order is not modelled. `Report.Flatten` lists the records in an unspecified order of the keys.
- Report.SortBySorted: proves sortedness and permutation, not stability. `Report.SortBy` is a stable insertion sort, as Python's `sorted` is.
- Report.SortedRows: does not pin the order of rows whose case-folded logins are equal (`Alice` and `alice`). In the source that order follows dictionary insertion, which the model leaves unspecified.
- Report.SortedRows, Report.PrepareReport, Report.PrepareSortedReport: require every record to hold a string `login` field. The sort key at main.py:326 reads `i['login'].casefold()`, which raises on a missing key or a null login. The traversal and the join always write that field, as `Audit.TraverseLoginFields` and `Audit.JoinKeepsLoginPresent` show, so `Audit.AuditRun` never meets the raising case. The model does not follow it.
- Each member record is a distinct dict in the source, so records share nothing. The model treats them as values and updates them by reassignment.

## Findings

| source | as written | input that shows it | evidently intended | confidence | as-written member | corrected member |
|---|---|---|---|---|---|---|
| main.py:310-314 | With `sort_columns` true, line 311 stores the sorted headings in `column_headings`, which is never read. Line 314 builds the CSV columns from the unsorted `addtl_column_headings`. | repositories `b` then `A` give header `login,name,b,A` | header `login,name,A,b`, with repository columns sorted case-insensitively | medium, not executed | `Report.UnsortedColumnsWitness` (on `Report.PrepareReport`) | `Report.PrepareSortedReport` |
