/**
 * `ClassroomService`: enrolment with a key, deletion of a classroom with its
 * homeworks, and the lookup of a classroom's homeworks.
 */
module ClassroomService {
  import opened Wrappers
  import opened Model

  /** The ids of the homeworks whose classroom is `classroomId` (the mapped-by `Classroom.homeworks`). */
  function HomeworksOf(homeworks: map<int, Homework>, classroomId: int): (ids: set<int>)
    ensures forall h :: h in ids <==> h in homeworks && homeworks[h].classroomId == Some(classroomId)
  {
    set h | h in homeworks && homeworks[h].classroomId == Some(classroomId)
  }

  /** Every roster entry is a stored user. */
  predicate RostersKnown(classrooms: map<int, Classroom>, users: set<int>) {
    forall c, s :: c in classrooms && s in classrooms[c].students ==> s in users
  }

  /** Every homework that names a classroom names a stored one. */
  predicate HomeworksAttached(classrooms: map<int, Classroom>, homeworks: map<int, Homework>) {
    forall h :: h in homeworks && homeworks[h].classroomId.Some? ==> homeworks[h].classroomId.value in classrooms
  }

  /** The classroom after `userId` joined it: the user is appended to the roster. */
  function Enrolled(c: Classroom, userId: int): (e: Classroom)
    ensures e.name == c.name && e.description == c.description && e.enrollmentKey == c.enrollmentKey
    ensures |e.students| == |c.students| + 1
    ensures e.students[..|c.students|] == c.students && e.students[|c.students|] == userId
  {
    c.(students := c.students + [userId])
  }

  /** Enrolment has no duplicate check: each enrolment adds one more roster entry for the user. */
  lemma EnrolledCountsEveryEnrolment(c: Classroom, userId: int)
    ensures multiset(Enrolled(c, userId).students)[userId] == multiset(c.students)[userId] + 1
    ensures multiset(Enrolled(Enrolled(c, userId), userId).students)[userId] == multiset(c.students)[userId] + 2
  {
    assert Enrolled(c, userId).students == c.students + [userId];
    assert Enrolled(Enrolled(c, userId), userId).students == c.students + [userId] + [userId];
  }

  class ClassroomStore {
    var classrooms: map<int, Classroom>
    var users: set<int>
    var homeworks: map<int, Homework>

    constructor (classrooms: map<int, Classroom>, users: set<int>, homeworks: map<int, Homework>)
      ensures this.classrooms == classrooms && this.users == users && this.homeworks == homeworks
    {
      this.classrooms := classrooms;
      this.users := users;
      this.homeworks := homeworks;
    }

    /**
     * `enroll`: with an existing classroom and user and a key equal to the
     * classroom's, the user is appended to the roster; otherwise the call
     * throws and nothing changes. A null key never matches.
     */
    method Enroll(classroomId: int, userId: int, key: Option<string>) returns (r: Outcome<()>)
      modifies this
      ensures users == old(users) && homeworks == old(homeworks)
      ensures classroomId in old(classrooms) && userId in users && key == Some(old(classrooms)[classroomId].enrollmentKey) ==>
        r == Value(()) && classrooms == old(classrooms)[classroomId := Enrolled(old(classrooms)[classroomId], userId)]
      ensures !(classroomId in old(classrooms) && userId in users && key == Some(old(classrooms)[classroomId].enrollmentKey)) ==>
        r == Thrown("Failed to enroll classroom") && classrooms == old(classrooms)
      ensures old(RostersKnown(classrooms, users)) ==> RostersKnown(classrooms, users)
      ensures old(HomeworksAttached(classrooms, homeworks)) ==> HomeworksAttached(classrooms, homeworks)
    {
      if classroomId in classrooms && userId in users && key == Some(classrooms[classroomId].enrollmentKey) {
        classrooms := classrooms[classroomId := Enrolled(classrooms[classroomId], userId)];
        r := Value(());
      } else {
        r := Thrown("Failed to enroll classroom");
      }
    }

    /**
     * `delete`: a missing classroom throws "Classroom not found". Otherwise
     * each of its homeworks has its problem list cleared and is deleted, and
     * then the classroom (with its roster) is deleted.
     */
    method Delete(classroomId: int) returns (r: Outcome<()>)
      modifies this
      ensures users == old(users)
      ensures classroomId !in old(classrooms) ==>
        r == Thrown("Classroom not found") && classrooms == old(classrooms) && homeworks == old(homeworks)
      ensures classroomId in old(classrooms) ==>
        r == Value(()) && classrooms == old(classrooms) - {classroomId}
        && (forall h :: h in homeworks <==> h in old(homeworks) && old(homeworks)[h].classroomId != Some(classroomId))
        && (forall h :: h in homeworks ==> homeworks[h] == old(homeworks)[h])
      ensures old(RostersKnown(classrooms, users)) ==> RostersKnown(classrooms, users)
      ensures old(HomeworksAttached(classrooms, homeworks)) ==> HomeworksAttached(classrooms, homeworks)
    {
      if classroomId !in classrooms {
        return Thrown("Classroom not found");
      }
      var before := homeworks;
      var owned := HomeworksOf(before, classroomId);
      var pending := owned;
      var remaining := before;
      while exists id :: id in pending
        invariant pending <= owned
        invariant forall h :: h in remaining <==> h in before && h !in owned - pending
        invariant forall h :: h in remaining ==> remaining[h] == before[h]
        decreases |pending|
      {
        var id :| id in pending;
        // Clearing the homework's problem list is not observable once it is deleted.
        remaining := remaining - {id};
        pending := pending - {id};
      }
      homeworks := remaining;
      classrooms := classrooms - {classroomId};
      r := Value(());
    }

    /** `getHomeworksByClassroomId`: the classroom's homeworks; a missing classroom fails the unchecked lookup. */
    function GetHomeworksByClassroomId(classroomId: int): (r: Outcome<set<int>>)
      reads this
      ensures classroomId !in classrooms <==> r.Thrown?
      ensures r.Value? ==> forall h :: h in r.value <==> h in homeworks && homeworks[h].classroomId == Some(classroomId)
    {
      if classroomId !in classrooms then Thrown("No value present")
      else Value(HomeworksOf(homeworks, classroomId))
    }
  }
}
