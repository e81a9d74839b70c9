/** The user records written on the OAuth handshake, one per subject claim. */
module Users {
  import opened Entities

  /** Some stored user has this subject. */
  predicate HasSubject(users: map<nat, User>, sub: string)
  {
    exists k :: k in users && users[k].userId == sub
  }

  /** No two stored users share a subject. */
  predicate UniqueSubjects(users: map<nat, User>)
  {
    forall j, k :: j in users && k in users && users[j].userId == users[k].userId ==> j == k
  }

  /** Inserting a user whose subject is not yet stored, under a fresh key, keeps subjects unique. */
  lemma InsertKeepsSubjectsUnique(users: map<nat, User>, k: nat, u: User)
    requires UniqueSubjects(users)
    requires k !in users && !HasSubject(users, u.userId)
    ensures UniqueSubjects(users[k := u])
    ensures HasSubject(users[k := u], u.userId)
  {
    assert users[k := u][k].userId == u.userId;
  }
}
