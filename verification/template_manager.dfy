/** The template list of `src/components/TemplateManager.tsx`: versions
    appended on save, replace/delete/toggle by id, the search filter, and
    the rolling window of backups. Clock readings (`Date.now()` ids and
    ISO dates) arrive as a `Stamp`. */
module TemplateManager {
  import opened Strings
  import opened Seqs

  /** `.slice(-10)` in `createBackup`. */
  const BackupLimit: nat := 10

  /** The author every version is credited to. */
  const Author: string := "Utilisateur"

  /** The change note `saveTemplate` records. */
  const SaveNote: string := "Mise à jour du template"

  datatype Version = Version(
    id: string,
    version: int,
    content: string,
    createdAt: string,
    author: string,
    changes: string)

  datatype Template = Template(
    id: string,
    name: string,
    content: string,
    category: string,
    isFavorite: bool,
    createdAt: string,
    updatedAt: string,
    versions: seq<Version>,
    lastBackup: string)

  /** `size` is the length of the serialised list, taken as given. */
  datatype Backup = Backup(id: string, templates: seq<Template>, createdAt: string, size: nat)

  /** The component's state: the template list and the backups. */
  datatype Manager = Manager(templates: seq<Template>, backups: seq<Backup>)

  /** The clock readings of one action: the id from `Date.now()` and the
      two ISO dates. */
  datatype Stamp = Stamp(id: string, createdAt: string, updatedAt: string)

  // ----- Backups -----

  /** `createBackup`: snapshot the current list, keep the last 10. */
  function CreateBackup(m: Manager, stamp: Stamp, size: nat): (m': Manager)
    ensures m'.templates == m.templates
    ensures |m'.backups| == if |m.backups| + 1 < BackupLimit then |m.backups| + 1 else BackupLimit
    ensures m'.backups[|m'.backups| - 1].templates == m.templates
    ensures IsSuffix(m'.backups[..|m'.backups| - 1], m.backups)
  {
    m.(backups := PushWindow(m.backups, Backup(stamp.id, m.templates, stamp.createdAt, size), BackupLimit))
  }

  /** `restoreFromBackup`: the list becomes the backup's list. */
  function RestoreFromBackup(m: Manager, b: Backup): (m': Manager)
    ensures m'.templates == b.templates && m'.backups == m.backups
  {
    m.(templates := b.templates)
  }

  /** Restoring the newest backup, after any edits to the list, gives back
      the list as it was when the backup was taken. */
  lemma RestoreUndoesEdits(m: Manager, stamp: Stamp, size: nat, edited: seq<Template>)
    ensures var m1 := CreateBackup(m, stamp, size);
      var b := m1.backups[|m1.backups| - 1];
      RestoreFromBackup(m1.(templates := edited), b) == m1
  {
  }

  // ----- Versions -----

  /** The version `createVersion` records for `t`. */
  function NewVersion(t: Template, changes: string, stamp: Stamp): (v: Version)
    ensures v.version == |t.versions| + 1 && v.content == t.content
    ensures v.author == Author && v.changes == changes
  {
    Version(stamp.id, |t.versions| + 1, t.content, stamp.createdAt, Author, changes)
  }

  /** The updated template of `createVersion`: one more version, a new
      `updatedAt`, and every other field as it was. */
  function WithVersion(t: Template, changes: string, stamp: Stamp): (u: Template)
    ensures |u.versions| == |t.versions| + 1
    ensures u.versions[..|t.versions|] == t.versions
    ensures u.versions[|t.versions|].version == |t.versions| + 1
    ensures u.versions[|t.versions|].content == t.content
    ensures u.versions[|t.versions|].changes == changes
    ensures u.id == t.id && u.name == t.name && u.content == t.content
    ensures u.category == t.category && u.isFavorite == t.isFavorite
    ensures u.createdAt == t.createdAt && u.lastBackup == t.lastBackup
    ensures u.updatedAt == stamp.updatedAt
  {
    t.(versions := t.versions + [NewVersion(t, changes, stamp)], updatedAt := stamp.updatedAt)
  }

  /** Version numbers run 1, 2, ... in order. */
  predicate NumberedFromOne(vs: seq<Version>) {
    forall i :: 0 <= i < |vs| ==> vs[i].version == i + 1
  }

  /** Each edit is a change note and the clock readings of that edit. */
  datatype Edit = Edit(changes: string, stamp: Stamp)

  /** The template after `createVersion` for each edit in turn. */
  function History(t: Template, edits: seq<Edit>): Template
    decreases |edits|
  {
    if |edits| == 0 then t
    else History(WithVersion(t, edits[0].changes, edits[0].stamp), edits[1..])
  }

  /** Versioning keeps the numbering and adds one version per edit;
      starting from no versions, the numbers are exactly 1..n. */
  lemma {:induction false} HistoryNumbering(t: Template, edits: seq<Edit>)
    requires NumberedFromOne(t.versions)
    ensures NumberedFromOne(History(t, edits).versions)
    ensures |History(t, edits).versions| == |t.versions| + |edits|
    ensures History(t, edits).versions[..|t.versions|] == t.versions
    decreases |edits|
  {
    if |edits| > 0 {
      var u := WithVersion(t, edits[0].changes, edits[0].stamp);
      assert NumberedFromOne(u.versions) by {
        forall i | 0 <= i < |u.versions|
          ensures u.versions[i].version == i + 1
        {
          if i < |t.versions| {
            assert u.versions[i] == u.versions[..|t.versions|][i];
          }
        }
      }
      HistoryNumbering(u, edits[1..]);
      var h := History(u, edits[1..]);
      assert h.versions[..|t.versions|] == h.versions[..|u.versions|][..|t.versions|];
    }
  }

  // ----- Updates by id -----

  /** `prev.map(t => t.id === u.id ? u : t)`. */
  function ReplaceById(ts: seq<Template>, u: Template): (r: seq<Template>)
    ensures |r| == |ts|
    ensures forall i :: 0 <= i < |ts| && ts[i].id == u.id ==> r[i] == u
    ensures forall i :: 0 <= i < |ts| && ts[i].id != u.id ==> r[i] == ts[i]
  {
    seq(|ts|, i requires 0 <= i < |ts| => if ts[i].id == u.id then u else ts[i])
  }

  /** Replacing by id keeps every position's id. */
  lemma ReplaceKeepsIds(ts: seq<Template>, u: Template)
    ensures forall i :: 0 <= i < |ts| ==> ReplaceById(ts, u)[i].id == ts[i].id
  {
  }

  /** Replacing twice with the same template is replacing once, and a
      later replacement with the same id wins outright. */
  lemma ReplaceLastWins(ts: seq<Template>, u: Template, w: Template)
    requires u.id == w.id
    ensures ReplaceById(ReplaceById(ts, u), w) == ReplaceById(ts, w)
  {
  }

  /** `createVersion`: the list with `t`'s entry replaced by `t` plus its new
      version. */
  function CreateVersion(ts: seq<Template>, t: Template, changes: string, stamp: Stamp): (r: seq<Template>)
    ensures |r| == |ts|
    ensures forall i :: 0 <= i < |ts| && ts[i].id != t.id ==> r[i] == ts[i]
    ensures forall i :: 0 <= i < |ts| && ts[i].id == t.id ==> r[i] == WithVersion(t, changes, stamp)
    ensures forall i :: 0 <= i < |ts| && ts[i].id == t.id ==>
      r[i].versions == t.versions + [NewVersion(t, changes, stamp)]
  {
    ReplaceById(ts, WithVersion(t, changes, stamp))
  }

  /** `saveTemplate`: replace by id, then `createVersion` on the saved
      template. */
  function SaveTemplate(ts: seq<Template>, t: Template, stamp: Stamp): (r: seq<Template>)
    ensures |r| == |ts|
    ensures forall i :: 0 <= i < |ts| && ts[i].id != t.id ==> r[i] == ts[i]
  {
    CreateVersion(ReplaceById(ts, t), t, SaveNote, stamp)
  }

  /** Saving amounts to a single replacement by the saved template with one
      more version: the plain replacement is overwritten by the versioned
      one, and the versions appended to are those of the template passed in,
      not of the entry it replaces. */
  lemma SaveIsVersionedReplace(ts: seq<Template>, t: Template, stamp: Stamp)
    ensures SaveTemplate(ts, t, stamp) == ReplaceById(ts, WithVersion(t, SaveNote, stamp))
  {
    ReplaceLastWins(ts, t, WithVersion(t, SaveNote, stamp));
  }

  /** `deleteTemplate`: every template with that id goes, the rest stay in
      order, each as many times as it occurred. */
  function DeleteTemplate(ts: seq<Template>, id: string): (r: seq<Template>)
    ensures forall i :: 0 <= i < |r| ==> r[i].id != id
    ensures forall i :: 0 <= i < |ts| && ts[i].id != id ==> ts[i] in r
    ensures IsSubsequence(r, ts)
    ensures forall t :: multiset(r)[t] == if t.id != id then multiset(ts)[t] else 0
  {
    Filter(ts, (t: Template) => t.id != id)
  }

  /** Deleting an id nobody has changes nothing. */
  lemma DeleteAbsentId(ts: seq<Template>, id: string)
    requires forall i :: 0 <= i < |ts| ==> ts[i].id != id
    ensures DeleteTemplate(ts, id) == ts
  {
    FilterKeepsAll(ts, (t: Template) => t.id != id);
  }

  /** `toggleFavorite`: flip the flag of the templates with that id. */
  function ToggleFavorite(ts: seq<Template>, id: string): (r: seq<Template>)
    ensures |r| == |ts|
    ensures forall i :: 0 <= i < |ts| && ts[i].id == id ==>
      r[i].isFavorite == !ts[i].isFavorite && r[i].(isFavorite := ts[i].isFavorite) == ts[i]
    ensures forall i :: 0 <= i < |ts| && ts[i].id != id ==> r[i] == ts[i]
  {
    seq(|ts|, i requires 0 <= i < |ts| =>
      if ts[i].id == id then ts[i].(isFavorite := !ts[i].isFavorite) else ts[i])
  }

  /** Toggling twice restores the list. */
  lemma ToggleTwice(ts: seq<Template>, id: string)
    ensures ToggleFavorite(ToggleFavorite(ts, id), id) == ts
  {
  }

  // ----- Search -----

  /** The search predicate: the lowered name or category contains the
      lowered query. */
  predicate MatchesQuery(t: Template, query: string) {
    Contains(Lower(t.name), Lower(query)) || Contains(Lower(t.category), Lower(query))
  }

  /** `filteredTemplates`: the matching templates, in order, each as many
      times as it occurred. */
  function FilteredTemplates(ts: seq<Template>, query: string): (r: seq<Template>)
    ensures forall i :: 0 <= i < |r| ==> r[i] in ts && MatchesQuery(r[i], query)
    ensures forall i :: 0 <= i < |ts| && MatchesQuery(ts[i], query) ==> ts[i] in r
    ensures IsSubsequence(r, ts)
    ensures forall t :: multiset(r)[t] == if MatchesQuery(t, query) then multiset(ts)[t] else 0
  {
    Filter(ts, (t: Template) => MatchesQuery(t, query))
  }

  /** The empty query keeps every template. */
  lemma EmptyQueryKeepsAll(ts: seq<Template>)
    ensures FilteredTemplates(ts, "") == ts
  {
    forall t | t in ts
      ensures MatchesQuery(t, "")
    {
      ContainsEmpty(Lower(t.name));
    }
    FilterKeepsAll(ts, (t: Template) => MatchesQuery(t, ""));
  }

  /** The search ignores the case of the query. */
  lemma QueryCaseIgnored(ts: seq<Template>, query: string)
    ensures FilteredTemplates(ts, Lower(query)) == FilteredTemplates(ts, query)
  {
    LowerIdempotent(query);
    FilterAgree(ts, (t: Template) => MatchesQuery(t, Lower(query)), (t: Template) => MatchesQuery(t, query));
  }
}
