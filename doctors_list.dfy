/** The admin's doctor list (`DoctorsList`): the list read from the backend,
    the hospital and department options, the two-way filter and the removal
    of a deleted doctor. */
module DoctorsList {
  import opened Common
  import opened Lists

  /** A doctor of the list, by the fields the page uses. */
  datatype ListedDoctor = ListedDoctor(doctorId: int, name: string, hospitalName: string, departmentName: string)

  /** The selection that matches every doctor. */
  const All: string := "All"

  /** The list is the body's `$values` when they are an array; any other
      body is refused as an invalid format (None). */
  function ReadDoctors(data: Json<ListedDoctor>): (r: Option<seq<ListedDoctor>>)
    ensures data.Preserved? <==> r.Some?
    ensures r.Some? ==> r.value == data.values
  {
    if data.Preserved? then Some(data.values) else None
  }

  /** The backend's list arrives wrapped in `$values` and is read whole,
      and with both selections at "All" the page shows all of it; a bare
      array, which reference preservation never writes, would be refused. */
  lemma ReadListShownWhole(xs: seq<ListedDoctor>)
    ensures ReadDoctors(Preserved(xs)) == Some(xs)
    ensures FilterDoctors(ReadDoctors(Preserved(xs)).value, All, All) == xs
    ensures ReadDoctors(List(xs)) == None
  {
    FilterSelections(xs, All);
  }

  function HospitalNames(doctors: seq<ListedDoctor>): (r: seq<string>)
    ensures |r| == |doctors| && forall i :: 0 <= i < |r| ==> r[i] == doctors[i].hospitalName
  {
    seq(|doctors|, i requires 0 <= i < |doctors| => doctors[i].hospitalName)
  }

  function DepartmentNames(doctors: seq<ListedDoctor>): (r: seq<string>)
    ensures |r| == |doctors| && forall i :: 0 <= i < |r| ==> r[i] == doctors[i].departmentName
  {
    seq(|doctors|, i requires 0 <= i < |doctors| => doctors[i].departmentName)
  }

  /** The hospital options: every hospital name of the list once, in the
      order of its first occurrence. */
  function HospitalOptions(doctors: seq<ListedDoctor>): (r: seq<string>)
    ensures NoDuplicates(r)
    ensures forall h :: h in r <==> exists i :: 0 <= i < |doctors| && doctors[i].hospitalName == h
    ensures r == FirstOccurrences(HospitalNames(doctors))
  {
    var names := HospitalNames(doctors);
    DistinctIsFirstOccurrences(names);
    assert forall h :: h in names <==> exists i :: 0 <= i < |doctors| && doctors[i].hospitalName == h;
    Distinct(names)
  }

  /** The department options, likewise. */
  function DepartmentOptions(doctors: seq<ListedDoctor>): (r: seq<string>)
    ensures NoDuplicates(r)
    ensures forall d :: d in r <==> exists i :: 0 <= i < |doctors| && doctors[i].departmentName == d
    ensures r == FirstOccurrences(DepartmentNames(doctors))
  {
    var names := DepartmentNames(doctors);
    DistinctIsFirstOccurrences(names);
    assert forall d :: d in names <==> exists i :: 0 <= i < |doctors| && doctors[i].departmentName == d;
    Distinct(names)
  }

  /** Whether a doctor matches the two selections; "All" matches anything. */
  predicate Matches(d: ListedDoctor, hospital: string, department: string) {
    (hospital == All || d.hospitalName == hospital) && (department == All || d.departmentName == department)
  }

  /** The filtered list: the doctors matching both selections, in order. */
  function FilterDoctors(doctors: seq<ListedDoctor>, hospital: string, department: string): (r: seq<ListedDoctor>)
    ensures forall i :: 0 <= i < |r| ==> r[i] in doctors && Matches(r[i], hospital, department)
    ensures forall i :: 0 <= i < |doctors| && Matches(doctors[i], hospital, department) ==> doctors[i] in r
    ensures IsSubsequence(r, doctors)
    ensures forall d :: multiset(r)[d] == if Matches(d, hospital, department) then multiset(doctors)[d] else 0
  {
    var p := (d: ListedDoctor) => Matches(d, hospital, department);
    FilterMultiset(doctors, p);
    Filter(doctors, p)
  }

  /** With both selections at "All" the whole list is shown, and every
      hospital option selects at least one doctor. */
  lemma FilterSelections(doctors: seq<ListedDoctor>, hospital: string)
    ensures FilterDoctors(doctors, All, All) == doctors
    ensures hospital in HospitalOptions(doctors) ==> FilterDoctors(doctors, hospital, All) != []
  {
    FilterAll(doctors, (d: ListedDoctor) => Matches(d, All, All));
    if hospital in HospitalOptions(doctors) {
      var i :| 0 <= i < |doctors| && doctors[i].hospitalName == hospital;
      assert doctors[i] in FilterDoctors(doctors, hospital, All);
    }
  }

  /** `deleteDoctor`: on a 200 reply the doctor leaves the list; any other
      outcome (None for an exception) leaves the list as it was. */
  function DeleteDoctor(doctors: seq<ListedDoctor>, id: int, status: Option<int>): (r: seq<ListedDoctor>)
    ensures status != Some(200) ==> r == doctors
    ensures status == Some(200) ==>
              && (forall i :: 0 <= i < |r| ==> r[i].doctorId != id)
              && (forall i :: 0 <= i < |doctors| && doctors[i].doctorId != id ==> doctors[i] in r)
              && IsSubsequence(r, doctors)
              && (forall d :: multiset(r)[d] == if d.doctorId != id then multiset(doctors)[d] else 0)
  {
    if status == Some(200) then
      var p := (d: ListedDoctor) => d.doctorId != id;
      FilterMultiset(doctors, p);
      Filter(doctors, p)
    else doctors
  }
}
