/** The patient client's doctors page (`Doctors`): the doctors shown for the
    speciality in the address and the hospital picked from the drop-down. */
module DoctorsPage {
  import opened Common
  import opened Text
  import opened Lists

  /** A doctor of the page, by the fields the filter reads. The backend's
      specialization and hospital name are nullable. */
  datatype DoctorEntry = DoctorEntry(doctorId: int, name: string, specialization: Option<string>, hospitalName: Option<string>)

  /** The speciality test: the doctor has a specialization and it, lowered
      and trimmed, contains the wanted speciality, lowered and trimmed. */
  predicate SpecialityMatches(d: DoctorEntry, speciality: string) {
    d.specialization.Some? && Contains(Trim(Lower(d.specialization.value)), Trim(Lower(speciality)))
  }

  /** Whether the speciality filter throws: it runs whenever the speciality
      is truthy, and `doc.specialization.toLowerCase()` raises a TypeError
      for a doctor whose specialization is `null`. */
  predicate FilterThrows(doctors: seq<DoctorEntry>, speciality: Option<string>) {
    Truthy(speciality) && exists i | 0 <= i < |doctors| :: doctors[i].specialization.None?
  }

  /** Whether a doctor passes the page's filters: each filter applies only
      when its value is truthy. */
  predicate Shown(d: DoctorEntry, speciality: Option<string>, selectedHospital: string) {
    (!Truthy(speciality) || SpecialityMatches(d, speciality.value))
    && (selectedHospital == [] || d.hospitalName == Some(selectedHospital))
  }

  /** `applyFilter`: the speciality filter, when there is a speciality,
      then the hospital filter, when one is selected. `None` is the thrown
      TypeError: `setFilterDoc` is not reached and the shown list stays as
      it was. */
  function ApplyFilter(doctors: seq<DoctorEntry>, speciality: Option<string>, selectedHospital: string): (r: Option<seq<DoctorEntry>>)
    ensures r.None? <==> FilterThrows(doctors, speciality)
    ensures r.Some? ==> forall i :: 0 <= i < |r.value| ==> r.value[i] in doctors && Shown(r.value[i], speciality, selectedHospital)
    ensures r.Some? ==> forall i :: 0 <= i < |doctors| && Shown(doctors[i], speciality, selectedHospital) ==> doctors[i] in r.value
    ensures r.Some? ==> IsSubsequence(r.value, doctors)
    ensures r.Some? ==> forall d :: multiset(r.value)[d] == if Shown(d, speciality, selectedHospital) then multiset(doctors)[d] else 0
  {
    var bySpeciality := BySpeciality(doctors, speciality);
    if bySpeciality.None? then None
    else if selectedHospital == [] then bySpeciality
    else
      var p := (d: DoctorEntry) => d.hospitalName == Some(selectedHospital);
      var r := Filter(bySpeciality.value, p);
      SubsequenceTransitive(r, bySpeciality.value, doctors);
      FilterMultiset(bySpeciality.value, p);
      Some(r)
  }

  /** The first step of the filter: the doctors matching the speciality,
      when there is one; `None` when a doctor without a specialization makes
      the test throw. */
  function BySpeciality(doctors: seq<DoctorEntry>, speciality: Option<string>): (r: Option<seq<DoctorEntry>>)
    ensures r.None? <==> FilterThrows(doctors, speciality)
    ensures r.Some? ==> forall i :: 0 <= i < |r.value| ==> r.value[i] in doctors && (!Truthy(speciality) || SpecialityMatches(r.value[i], speciality.value))
    ensures r.Some? ==> forall i :: 0 <= i < |doctors| && (!Truthy(speciality) || SpecialityMatches(doctors[i], speciality.value)) ==> doctors[i] in r.value
    ensures r.Some? ==> IsSubsequence(r.value, doctors)
    ensures !Truthy(speciality) ==> r == Some(doctors)
    ensures r.Some? ==> forall d :: multiset(r.value)[d] == if !Truthy(speciality) || SpecialityMatches(d, speciality.value) then multiset(doctors)[d] else 0
  {
    if !Truthy(speciality) then
      SubsequenceOfSelf(doctors);
      Some(doctors)
    else if exists i | 0 <= i < |doctors| :: doctors[i].specialization.None? then None
    else
      var p := (d: DoctorEntry) => SpecialityMatches(d, speciality.value);
      FilterMultiset(doctors, p);
      Some(Filter(doctors, p))
  }

  /** Without a speciality and a hospital the page shows every doctor. A
      speciality of white space only still runs the filter: it lets every
      doctor through when all have a specialization, and throws otherwise. */
  lemma NoFilterShowsAll(doctors: seq<DoctorEntry>, speciality: Option<string>)
    ensures !Truthy(speciality) ==> ApplyFilter(doctors, speciality, []) == Some(doctors)
    ensures Truthy(speciality) && AllWhite(speciality.value) ==>
              (ApplyFilter(doctors, speciality, []) == Some(doctors)
               <==> forall i :: 0 <= i < |doctors| ==> doctors[i].specialization.Some?)
  {
    if Truthy(speciality) && AllWhite(speciality.value) && forall i :: 0 <= i < |doctors| ==> doctors[i].specialization.Some? {
      var s := speciality.value;
      assert Lower(s) == s by {
        assert forall i :: 0 <= i < |s| ==> !IsUpper(s[i]);
      }
      assert Trim(Lower(s)) == [];
      forall i | 0 <= i < |doctors|
        ensures SpecialityMatches(doctors[i], s)
      {
        ContainsEmptyAndSelf(Trim(Lower(doctors[i].specialization.value)));
      }
      FilterAll(doctors, (d: DoctorEntry) => SpecialityMatches(d, s));
    }
  }

  /** The speciality filter ignores case: a doctor's specialization that is
      the wanted speciality itself, in whatever capitals, matches. */
  lemma SameSpecialityMatches(d: DoctorEntry, speciality: string)
    requires d.specialization.Some? && Lower(d.specialization.value) == Lower(speciality)
    ensures SpecialityMatches(d, speciality)
  {
    ContainsEmptyAndSelf(Trim(Lower(speciality)));
  }
}
