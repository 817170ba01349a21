/** The service_users table ("residents") of KeyWorkerApp/database_utils.py:
    add, update and delete, where delete also removes the resident's forms.
    The new tables are functions of the old ones; the Database class's
    methods are proved against them. */
module Residents {
  import opened Common
  import opened Tables
  import opened FormStore

  type ResidentTable = map<int, ServiceUserRow>

  /** The invariants of service_users: positive rowids and UNIQUE(name). */
  ghost predicate NamesUnique(t: ResidentTable)
  {
    && (forall id :: id in t ==> id >= 1)
    && (forall a, b :: a in t && b in t && t[a].name == t[b].name ==> a == b)
  }

  /** Some row other than `except` already has `name`. */
  predicate NameTakenByOther(t: ResidentTable, name: string, except: Option<int>)
  {
    exists id :: id in t && t[id].name == name && Some(id) != except
  }

  /** add_service_user_db succeeds iff the name is free. */
  predicate CanAdd(t: ResidentTable, name: string)
  {
    !NameTakenByOther(t, name, None)
  }

  /** The table after a successful INSERT. */
  ghost function AddResident(t: ResidentTable, name: string, dob: string): ResidentTable
  {
    t[NextRowId(t.Keys) := ServiceUserRow(name, dob)]
  }

  /** update_service_user_db fails only when the row exists and another row
      already has the new name; an UPDATE that matches no row succeeds. */
  predicate CanUpdate(t: ResidentTable, id: int, name: string)
  {
    id !in t || !NameTakenByOther(t, name, Some(id))
  }

  /** The table after a successful UPDATE. */
  function UpdateResident(t: ResidentTable, id: int, name: string, dob: string): ResidentTable
  {
    if id in t then t[id := ServiceUserRow(name, dob)] else t
  }

  /** DELETE FROM forms WHERE service_user_id = id. */
  function FormsWithoutResident(forms: map<int, FormRow>, id: int): map<int, FormRow>
  {
    map f | f in forms && Get(forms[f], ServiceUserIdColumn) != Int(id) :: forms[f]
  }

  // -------------------------------------------------------------- lemmas

  /** A successful add keeps names unique, keeps every old row, and stores
      the new resident under a fresh positive id. */
  lemma AddResidentFacts(t: ResidentTable, name: string, dob: string)
    requires NamesUnique(t) && CanAdd(t, name)
    ensures var t' := AddResident(t, name, dob);
      && NamesUnique(t')
      && t'.Keys == t.Keys + {NextRowId(t.Keys)}
      && NextRowId(t.Keys) !in t
      && t'[NextRowId(t.Keys)] == ServiceUserRow(name, dob)
      && forall id :: id in t ==> t'[id] == t[id]
  {
    NextRowIdFresh(t.Keys);
  }

  /** A successful update keeps names unique, changes only the row `id`,
      and leaves the table as it was when `id` is unknown. */
  lemma UpdateResidentFacts(t: ResidentTable, id: int, name: string, dob: string)
    requires NamesUnique(t) && CanUpdate(t, id, name)
    ensures var t' := UpdateResident(t, id, name, dob);
      && NamesUnique(t')
      && t'.Keys == t.Keys
      && (id in t ==> t'[id] == ServiceUserRow(name, dob))
      && (forall x :: x in t && x != id ==> t'[x] == t[x])
      && (id !in t ==> t' == t)
  {
    var t' := UpdateResident(t, id, name, dob);
    if id in t {
      forall a, b | a in t' && b in t' && t'[a].name == t'[b].name
        ensures a == b
      {
        assert !(t[a].name == name && Some(a) != Some(id));
        assert !(t[b].name == name && Some(b) != Some(id));
      }
    }
  }

  /** Renaming a resident to the name it already has never fails. */
  lemma UpdateSameNameAllowed(t: ResidentTable, id: int, dob: string)
    requires NamesUnique(t) && id in t
    ensures CanUpdate(t, id, t[id].name)
  {
  }

  /** Deleting a resident's forms removes exactly the forms whose
      service_user_id is that resident's id, and keeps the forms table's
      invariants. */
  lemma FormsWithoutResidentFacts(forms: map<int, FormRow>, id: int)
    requires WellFormed(forms)
    ensures var forms' := FormsWithoutResident(forms, id);
      && WellFormed(forms')
      && (forall f :: f in forms' ==> Get(forms'[f], ServiceUserIdColumn) != Int(id))
      && (forall f :: f in forms && Get(forms[f], ServiceUserIdColumn) != Int(id) ==> f in forms' && forms'[f] == forms[f])
      && (forall f :: f in forms' ==> f in forms)
  {
  }

  /** After the delete, no month of the deleted resident has a form. */
  lemma DeletedResidentHasNoForms(forms: map<int, FormRow>, id: int, monthYear: string)
    requires WellFormed(forms)
    ensures FindForm(FormsWithoutResident(forms, id), id, monthYear).None?
  {
  }
}
