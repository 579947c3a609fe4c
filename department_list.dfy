/** The admin's department list (`DepartmentList`): the full list and the
    list shown, which the hospital selection filters, the sort button
    reorders and a deletion shortens. */
module DepartmentList {
  import opened Common
  import opened Text
  import opened Lists

  /** A department of the list, by the fields the page uses. */
  datatype Department = Department(departmentId: int, name: string, hospitalName: string)

  /** The selection that shows every department. */
  const AllHospitals: string := "all"

  /** The ascending comparator: `a` may come first when its lowered hospital
      name is not after `b`'s. */
  predicate HospitalAscending(a: Department, b: Department) {
    LexLe(Lower(a.hospitalName), Lower(b.hospitalName))
  }

  /** The descending comparator. */
  predicate HospitalDescending(a: Department, b: Department) {
    LexLe(Lower(b.hospitalName), Lower(a.hospitalName))
  }

  lemma ComparatorsArePreorders()
    ensures TotalPreorder(HospitalAscending)
    ensures TotalPreorder(HospitalDescending)
  {
    forall a: Department, b: Department
      ensures HospitalAscending(a, b) || HospitalAscending(b, a)
      ensures HospitalDescending(a, b) || HospitalDescending(b, a)
    {
      LexTotal(Lower(a.hospitalName), Lower(b.hospitalName));
    }
    forall a: Department, b: Department, c: Department | HospitalAscending(a, b) && HospitalAscending(b, c)
      ensures HospitalAscending(a, c)
    {
      LexLeTransitive(Lower(a.hospitalName), Lower(b.hospitalName), Lower(c.hospitalName));
    }
    forall a: Department, b: Department, c: Department | HospitalDescending(a, b) && HospitalDescending(b, c)
      ensures HospitalDescending(a, c)
    {
      LexLeTransitive(Lower(c.hospitalName), Lower(b.hospitalName), Lower(a.hospitalName));
    }
  }

  /** The departments of one hospital, in order. */
  function OfHospital(departments: seq<Department>, hospital: string): (r: seq<Department>)
    ensures forall i :: 0 <= i < |r| ==> r[i] in departments && r[i].hospitalName == hospital
    ensures forall i :: 0 <= i < |departments| && departments[i].hospitalName == hospital ==> departments[i] in r
    ensures IsSubsequence(r, departments)
    ensures forall d :: multiset(r)[d] == if d.hospitalName == hospital then multiset(departments)[d] else 0
  {
    var p := (d: Department) => d.hospitalName == hospital;
    FilterMultiset(departments, p);
    Filter(departments, p)
  }

  /** A list without the department `id`, in order. */
  function Without(departments: seq<Department>, id: int): (r: seq<Department>)
    ensures forall i :: 0 <= i < |r| ==> r[i] in departments && r[i].departmentId != id
    ensures forall i :: 0 <= i < |departments| && departments[i].departmentId != id ==> departments[i] in r
    ensures IsSubsequence(r, departments)
    ensures forall d :: multiset(r)[d] == if d.departmentId != id then multiset(departments)[d] else 0
  {
    var p := (d: Department) => d.departmentId != id;
    FilterMultiset(departments, p);
    Filter(departments, p)
  }

  class DepartmentList {
    var departments: seq<Department>
    var filtered: seq<Department>
    /** `sortOrder === 'asc'`. */
    var ascending: bool

    /** The list shown only ever holds departments of the full list. */
    ghost predicate Valid()
      reads this
    {
      multiset(filtered) <= multiset(departments)
    }

    constructor ()
      ensures Valid()
      ensures departments == [] && filtered == [] && ascending
    {
      departments, filtered, ascending := [], [], true;
    }

    /** The first load: the body's `$values`, when they are an array, become
        both lists; any other body leaves them alone and is reported as an
        invalid format. */
    method Load(data: Json<Department>) returns (ok: bool)
      requires Valid()
      modifies this
      ensures Valid()
      ensures ok <==> data.Preserved?
      ensures ok ==> departments == data.values && filtered == data.values
      ensures !ok ==> departments == old(departments) && filtered == old(filtered)
      ensures ascending == old(ascending)
    {
      if data.Preserved? {
        departments, filtered := data.values, data.values;
        return true;
      }
      return false;
    }

    /** `handleHospitalChange`: "all" shows every department, any other
        value the departments of that hospital. */
    method HandleHospitalChange(selected: string)
      requires Valid()
      modifies this
      ensures Valid()
      ensures selected == AllHospitals ==> filtered == departments
      ensures selected != AllHospitals ==> filtered == OfHospital(departments, selected)
      ensures departments == old(departments) && ascending == old(ascending)
    {
      if selected == AllHospitals {
        filtered := departments;
      } else {
        FilterMultiset(departments, (d: Department) => d.hospitalName == selected);
        filtered := OfHospital(departments, selected);
      }
    }

    /** `deleteDepartment`: on a 200 reply the department leaves both lists;
        any other outcome (None for an exception) changes neither. */
    method DeleteDepartment(id: int, status: Option<int>)
      requires Valid()
      modifies this
      ensures Valid()
      ensures status == Some(200) ==> departments == Without(old(departments), id) && filtered == Without(old(filtered), id)
      ensures status != Some(200) ==> departments == old(departments) && filtered == old(filtered)
      ensures ascending == old(ascending)
    {
      if status == Some(200) {
        var p := (d: Department) => d.departmentId != id;
        FilterMultiset(departments, p);
        FilterMultiset(filtered, p);
        departments := Without(departments, id);
        filtered := Without(filtered, id);
      }
    }

    /** `handleSortChange`: the list shown is sorted by lowered hospital
        name, ascending or descending as the current order says, and the
        order flips for the next press. */
    method HandleSortChange()
      requires Valid()
      modifies this
      ensures Valid()
      ensures SortedBy(filtered, if old(ascending) then HospitalAscending else HospitalDescending)
      ensures multiset(filtered) == multiset(old(filtered))
      ensures ascending == !old(ascending)
      ensures departments == old(departments)
    {
      ComparatorsArePreorders();
      var sorted;
      if ascending {
        sorted := SortCopy(filtered, HospitalAscending);
      } else {
        sorted := SortCopy(filtered, HospitalDescending);
      }
      filtered := sorted;
      ascending := !ascending;
    }
  }
}
