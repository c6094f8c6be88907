/** The authentication routes: student registration and login (with the migration of
    legacy plain-text passwords), admin registration and login, profile photo upload,
    admin username update and the bulk deletion of students. The router owns the two
    collections it works on, users and admins. */
module Auth {
  import opened Wrappers
  import opened Http
  import opened Text
  import opened Bcrypt
  import Base64
  import opened Tables
  import opened AdminModel

  /** A User document. Its schema is not part of this model, so the values a request
      supplies are stored as given (absent ones stay absent) and saving neither
      validates nor hashes. */
  datatype User = User(id: Id, username: Field, email: string, password: string,
                       role: Field, studentId: Field, department: Field,
                       photo: Option<string>)

  function UserId(u: User): Id { u.id }
  function UserEmail(u: User): string { u.email }

  /** The filter of the bulk delete, `{ role: "student" }`. */
  predicate IsStudent(u: User) {
    u.role == Some("student")
  }

  predicate IsNotStudent(u: User) {
    !IsStudent(u)
  }

  /** The `user` object a successful login returns. */
  datatype SessionUser =
    | StudentSession(id: Id, email: string, username: Field, studentId: Field,
                     department: Field, photo: Option<string>)
    | AdminSession(id: Id, email: string, username: Field, department: Field,
                   photo: Option<string>)
  {
    /** The `isAdmin` flag of the response. */
    predicate IsAdmin() {
      AdminSession?
    }
  }

  /** `photo || null`: a missing or empty photo is reported as null. */
  function PhotoOrNull(photo: Option<string>): (r: Option<string>)
    ensures r.Some? <==> photo.Some? && photo.value != ""
    ensures r.Some? ==> r == photo
  {
    if photo.Some? && photo.value != "" then photo else None
  }

  /** The `user` object of a student login: flagged as not an admin, with the account's
      id, e-mail, username, student id and department, and the photo as `photo || null`. */
  function StudentView(u: User): (v: SessionUser)
    ensures !v.IsAdmin() && v.id == u.id && v.email == u.email && v.username == u.username
    ensures v.StudentSession? && v.studentId == u.studentId && v.department == u.department
    ensures v.photo == PhotoOrNull(u.photo)
  {
    StudentSession(u.id, u.email, u.username, u.studentId, u.department, PhotoOrNull(u.photo))
  }

  /** The `user` object of an admin login: flagged as an admin, with the account's id,
      e-mail, username and department, and the photo as `photo || null`. */
  function AdminView(a: Admin): (v: SessionUser)
    ensures v.IsAdmin() && v.id == a.id && v.email == a.email && v.department == Some(a.department)
    ensures v.username == Some(a.username)
    ensures v.photo == PhotoOrNull(a.photo)
  {
    AdminSession(a.id, a.email, Some(a.username), Some(a.department), PhotoOrNull(a.photo))
  }

  /** How a student login judges the entered password against the stored one. */
  datatype PasswordCheck = Rejected | Accepted | AcceptedLegacy(rehashed: string)

  /** A stored password starting with "$2" is a hash and is checked with `compare`;
      anything else is legacy plain text, compared after trimming both sides, and on a
      match it is to be replaced by the hash of the trimmed entry. */
  function CheckStudentPassword(stored: string, entered: string): (r: PasswordCheck)
    ensures r.Accepted? <==> IsHashed(stored) && Compare(Trim(entered), stored)
    ensures r.AcceptedLegacy? <==> !IsHashed(stored) && Trim(entered) == Trim(stored)
    ensures r.AcceptedLegacy? ==> IsHashed(r.rehashed) && Compare(Trim(entered), r.rehashed)
  {
    if IsHashed(stored) then
      if Compare(Trim(entered), stored) then Accepted else Rejected
    else if Trim(entered) == Trim(stored) then AcceptedLegacy(Hash(Trim(entered)))
    else Rejected
  }

  /** After a legacy password is migrated, the same entry logs in through the hashed
      branch, and the migrated password stays put. */
  lemma LegacyMigrationThenHashedLogin(stored: string, entered: string)
    requires CheckStudentPassword(stored, entered).AcceptedLegacy?
    ensures CheckStudentPassword(CheckStudentPassword(stored, entered).rehashed, entered) == Accepted
  {
  }

  /** A stored hash accepts every entry whose trim agrees with the hashed password on the
      first 72 characters, the only part bcrypt reads. */
  lemma SameKeyAccepted(password: string, entered: string)
    requires Key(Trim(entered)) == Key(password)
    ensures CheckStudentPassword(Hash(password), entered) == Accepted
  {
  }

  /** A stored text that starts with "$2" but is shorter than a header and a salt takes
      the hashed branch and accepts no entry at all. */
  lemma IncompleteHashRejected(stored: string, entered: string)
    requires IsHashed(stored) && |stored| < |Header| + |Salt|
    ensures CheckStudentPassword(stored, entered) == Rejected
  {
  }

  /** The migration relies on the User save storing the new value as given. If that save
      hashed a modified password, as the Admin hook does, the migrated hash would be
      hashed again and the same entry would be refused at the next login (unless the trimmed
      entry has 72 characters or more and itself begins with a hash's header and salt). */
  lemma HashingUserSaveBreaksMigration(stored: string, entered: string)
    requires CheckStudentPassword(stored, entered).AcceptedLegacy?
    requires |Trim(entered)| < KeyLength || !StartsWith(Trim(entered), Header + Salt)
    ensures CheckStudentPassword(Hash(CheckStudentPassword(stored, entered).rehashed), entered) == Rejected
  {
    DoubleHashRejected(Trim(entered));
  }

  /** A student registered with a password that does not start with "$2" (after trimming)
      can log in with it: the legacy branch accepts the stored trimmed text. */
  lemma RegisteredPasswordAccepted(password: string, entered: string)
    requires Trim(entered) == Trim(password) && !IsHashed(Trim(password))
    ensures CheckStudentPassword(Trim(password), entered).AcceptedLegacy?
  {
    TrimIdempotent(password);
  }

  ghost predicate HasUser(users: seq<User>, email: string) {
    exists i :: 0 <= i < |users| && users[i].email == email
  }

  ghost predicate HasAdmin(admins: seq<Admin>, email: string) {
    exists i :: 0 <= i < |admins| && admins[i].email == email
  }

  ghost predicate UsersValid(users: seq<User>, nextId: Id) {
    AllBelow(users, UserId, nextId) && Distinct(users, UserId) && Distinct(users, UserEmail)
  }

  /** Stored admins satisfy the schema, hold hashed passwords, and no two share an
      e-mail address (the schema's unique index). */
  ghost predicate AdminsValid(admins: seq<Admin>, nextId: Id) {
    && AllBelow(admins, AdminId, nextId) && Distinct(admins, AdminId)
    && Distinct(admins, AdminEmail)
    && forall i :: 0 <= i < |admins| ==> HasRequiredFields(admins[i]) && IsHashed(admins[i].password)
  }

  class AuthRouter {
    var users: seq<User>
    var admins: seq<Admin>
    var nextUserId: Id
    var nextAdminId: Id

    ghost predicate Valid()
      reads this
    {
      UsersValid(users, nextUserId) && AdminsValid(admins, nextAdminId)
    }

    constructor ()
      ensures Valid() && users == [] && admins == [] && nextUserId == 0 && nextAdminId == 0
    {
      users, admins := [], [];
      nextUserId, nextAdminId := 0, 0;
    }

    /** DELETE /delete-all-students: removes every user whose role is "student" and
        reports how many went. */
    method DeleteAllStudents() returns (status: int, deletedCount: nat)
      requires Valid()
      modifies this
      ensures Valid()
      ensures status == OK
      ensures users == Filter(old(users), IsNotStudent)
      ensures forall u :: u in users <==> u in old(users) && !IsStudent(u)
      ensures deletedCount == |old(users)| - |users|
      ensures admins == old(admins) && nextUserId == old(nextUserId) && nextAdminId == old(nextAdminId)
    {
      var kept := Filter(users, IsNotStudent);
      FilterKeepsBelow(users, IsNotStudent, UserId, nextUserId);
      FilterKeepsDistinct(users, IsNotStudent, UserId);
      FilterKeepsDistinct(users, IsNotStudent, UserEmail);
      deletedCount := |users| - |kept|;
      users := kept;
      status := OK;
    }

    /** POST /register: a student account under the trimmed, lower-cased e-mail. A
        missing e-mail or password makes `trim()` throw, answered with 500. */
    method Register(username: Field, email: Field, password: Field, studentId: Field,
                    department: Field, role: Field) returns (status: int)
      requires Valid()
      modifies this
      ensures Valid()
      ensures admins == old(admins) && nextAdminId == old(nextAdminId)
      ensures status != Created ==> users == old(users) && nextUserId == old(nextUserId)
      ensures email.None? ==> status == ServerError
      ensures email.Some? ==>
        var key := NormalizeEmail(email.value);
        if HasUser(old(users), key) then status == BadRequest
        else if password.None? then status == ServerError
        else status == Created
             && users == old(users) + [User(old(nextUserId), username, key, Trim(password.value),
                                            role, studentId, department, None)]
             && nextUserId == old(nextUserId) + 1
    {
      if email.None? {
        return ServerError;
      }
      var key := NormalizeEmail(email.value);
      var existing := FindFirst(users, (u: User) => u.email == key);
      if existing.Some? {
        return BadRequest;
      }
      if password.None? {
        return ServerError;
      }
      var user := User(nextUserId, username, key, Trim(password.value), role, studentId,
                       department, None);
      AppendKeepsDistinct(users, user, UserId);
      AppendKeepsDistinct(users, user, UserEmail);
      users := users + [user];
      nextUserId := nextUserId + 1;
      status := Created;
    }

    /** POST /login: a student login. Both fields must be truthy (400); an unknown
        e-mail gives 401; otherwise the stored password decides, and a matching legacy
        plain-text password is replaced by its hash. */
    method Login(email: Field, password: Field) returns (status: int, user: Option<SessionUser>)
      requires Valid()
      modifies this
      ensures Valid()
      ensures admins == old(admins) && nextUserId == old(nextUserId) && nextAdminId == old(nextAdminId)
      ensures status != OK ==> user.None? && users == old(users)
      ensures !Truthy(email) || !Truthy(password) ==> status == BadRequest
      ensures Truthy(email) && Truthy(password) ==>
        var key := NormalizeEmail(email.value);
        && (!HasUser(old(users), key) ==> status == Unauthorized)
        && forall i :: 0 <= i < |old(users)| && old(users)[i].email == key ==>
             var u := old(users)[i];
             match CheckStudentPassword(u.password, password.value)
             case Rejected => status == Unauthorized
             case Accepted => status == OK && user == Some(StudentView(u)) && users == old(users)
             case AcceptedLegacy(h) =>
               status == OK && user == Some(StudentView(u)) && users == old(users)[i := u.(password := h)]
    {
      if !Truthy(email) || !Truthy(password) {
        return BadRequest, None;
      }
      var key := NormalizeEmail(email.value);
      var found := FindFirst(users, (u: User) => u.email == key);
      if found.None? {
        return Unauthorized, None;
      }
      var i := found.value;
      var student := users[i];
      var entered := Trim(password.value);
      var isMatch: bool;
      if IsHashed(student.password) {
        isMatch := Compare(entered, student.password);
      } else {
        isMatch := entered == Trim(student.password);
        if isMatch {
          student := student.(password := Hash(entered));
          UpdateKeepsDistinct(users, i, student, UserId);
          UpdateKeepsDistinct(users, i, student, UserEmail);
          users := users[i := student];
        }
      }
      if !isMatch {
        return Unauthorized, None;
      }
      status, user := OK, Some(StudentView(student));
    }

    /** POST /register-admin: an admin account under the trimmed, lower-cased e-mail;
        the save validates the required fields and hashes the trimmed password. */
    method RegisterAdmin(username: Field, email: Field, password: Field, department: Field)
      returns (status: int)
      requires Valid()
      modifies this
      ensures Valid()
      ensures users == old(users) && nextUserId == old(nextUserId)
      ensures status != Created ==> admins == old(admins) && nextAdminId == old(nextAdminId)
      ensures email.None? ==> status == ServerError
      ensures email.Some? ==>
        var key := NormalizeEmail(email.value);
        if HasAdmin(old(admins), key) then status == BadRequest
        else if password.None? then status == ServerError
        else
          var doc := Admin(old(nextAdminId), TextOf(username), key, Trim(password.value),
                           TextOf(department), None);
          match Save(None, doc)
          case None => status == ServerError
          case Some(saved) =>
            status == Created && admins == old(admins) + [saved]
            && nextAdminId == old(nextAdminId) + 1
    {
      if email.None? {
        return ServerError;
      }
      var key := NormalizeEmail(email.value);
      var existing := FindFirst(admins, (a: Admin) => a.email == key);
      if existing.Some? {
        return BadRequest;
      }
      if password.None? {
        return ServerError;
      }
      var doc := Admin(nextAdminId, TextOf(username), key, Trim(password.value),
                       TextOf(department), None);
      var saved := Save(None, doc);
      if saved.None? {
        return ServerError;
      }
      AppendKeepsDistinct(admins, saved.value, AdminId);
      AppendKeepsDistinct(admins, saved.value, AdminEmail);
      admins := admins + [saved.value];
      nextAdminId := nextAdminId + 1;
      status := Created;
    }

    /** POST /admin-login: e-mail, password and department must all be truthy (400);
        the admin is looked up by e-mail and department together (401 if none) and the
        trimmed password must match its hash (401 otherwise). Nothing is written. */
    method AdminLogin(email: Field, password: Field, department: Field)
      returns (status: int, user: Option<SessionUser>)
      requires Valid()
      ensures status != OK ==> user.None?
      ensures !Truthy(email) || !Truthy(password) || !Truthy(department) ==> status == BadRequest
      ensures Truthy(email) && Truthy(password) && Truthy(department) ==>
        var key := NormalizeEmail(email.value);
        && ((forall i :: 0 <= i < |admins| ==> admins[i].email != key || admins[i].department != department.value)
              ==> status == Unauthorized)
        && forall i :: 0 <= i < |admins| && admins[i].email == key && admins[i].department == department.value ==>
             if MatchPassword(admins[i], Trim(password.value))
             then status == OK && user == Some(AdminView(admins[i]))
             else status == Unauthorized
    {
      if !Truthy(email) || !Truthy(password) || !Truthy(department) {
        return BadRequest, None;
      }
      var key := NormalizeEmail(email.value);
      var found := FindFirst(admins, (a: Admin) => a.email == key && a.department == department.value);
      if found.None? {
        return Unauthorized, None;
      }
      var admin := admins[found.value];
      if !MatchPassword(admin, Trim(password.value)) {
        return Unauthorized, None;
      }
      status, user := OK, Some(AdminView(admin));
    }

    /** POST /upload-photo: stores the base64 text of the uploaded bytes as the photo of
        the user with that e-mail or, when there is none, of the admin with it. */
    method UploadPhoto(email: Field, file: Option<seq<Base64.byte>>)
      returns (status: int, photo: Option<string>)
      requires Valid()
      modifies this
      ensures Valid()
      ensures nextUserId == old(nextUserId) && nextAdminId == old(nextAdminId)
      ensures status != OK ==> photo.None? && users == old(users) && admins == old(admins)
      ensures !Truthy(email) || file.None? ==> status == BadRequest
      ensures Truthy(email) && file.Some? ==>
        var key, encoded := NormalizeEmail(email.value), Base64.Encode(file.value);
        && (!HasUser(old(users), key) && !HasAdmin(old(admins), key) ==> status == NotFound)
        && (forall i :: 0 <= i < |old(users)| && old(users)[i].email == key ==>
              status == OK && photo == Some(encoded) && admins == old(admins)
              && users == old(users)[i := old(users)[i].(photo := Some(encoded))])
        && (!HasUser(old(users), key) ==>
              forall j :: 0 <= j < |old(admins)| && old(admins)[j].email == key ==>
                status == OK && photo == Some(encoded) && users == old(users)
                && admins == old(admins)[j := old(admins)[j].(photo := Some(encoded))])
    {
      if !Truthy(email) {
        return BadRequest, None;
      }
      if file.None? {
        return BadRequest, None;
      }
      var key := NormalizeEmail(email.value);
      var encoded := Base64.Encode(file.value);
      var foundUser := FindFirst(users, (u: User) => u.email == key);
      if foundUser.Some? {
        var i := foundUser.value;
        forall k | 0 <= k < |users| && users[k].email == key ensures k == i {
          DistinctAt(users, UserEmail, k, i);
        }
        SetUserPhoto(i, encoded);
        return OK, Some(encoded);
      }
      var foundAdmin := FindFirst(admins, (a: Admin) => a.email == key);
      if foundAdmin.None? {
        return NotFound, None;
      }
      var j := foundAdmin.value;
      forall k | 0 <= k < |admins| && admins[k].email == key ensures k == j {
        DistinctAt(admins, AdminEmail, k, j);
      }
      SetAdminPhoto(j, encoded);
      status, photo := OK, Some(encoded);
    }

    /** `user.photo = encoded; user.save()`. */
    method SetUserPhoto(i: nat, encoded: string)
      requires Valid() && i < |users|
      modifies this
      ensures Valid()
      ensures users == old(users)[i := old(users)[i].(photo := Some(encoded))]
      ensures admins == old(admins) && nextUserId == old(nextUserId) && nextAdminId == old(nextAdminId)
    {
      var updated := users[i].(photo := Some(encoded));
      UpdateKeepsDistinct(users, i, updated, UserId);
      UpdateKeepsDistinct(users, i, updated, UserEmail);
      users := users[i := updated];
    }

    /** `admin.photo = encoded; admin.save()`: the password is not modified, so the hook
        leaves the hash as it is. */
    method SetAdminPhoto(j: nat, encoded: string)
      requires Valid() && j < |admins|
      modifies this
      ensures Valid()
      ensures admins == old(admins)[j := old(admins)[j].(photo := Some(encoded))]
      ensures users == old(users) && nextUserId == old(nextUserId) && nextAdminId == old(nextAdminId)
    {
      var doc := admins[j].(photo := Some(encoded));
      var saved := Save(Some(admins[j]), doc);
      UpdateKeepsDistinct(admins, j, saved.value, AdminId);
      UpdateKeepsDistinct(admins, j, saved.value, AdminEmail);
      admins := admins[j := saved.value];
    }

    /** PUT /update-profile: sets the trimmed username of the admin with that e-mail.
        A username that is blank after trimming fails the schema's required validator. */
    method UpdateProfile(email: Field, username: Field) returns (status: int, newUsername: Option<string>)
      requires Valid()
      modifies this
      ensures Valid()
      ensures users == old(users) && nextUserId == old(nextUserId) && nextAdminId == old(nextAdminId)
      ensures status != OK ==> newUsername.None? && admins == old(admins)
      ensures !Truthy(email) || !Truthy(username) ==> status == BadRequest
      ensures Truthy(email) && Truthy(username) ==>
        var key, name := NormalizeEmail(email.value), Trim(username.value);
        && (!HasAdmin(old(admins), key) ==> status == NotFound)
        && forall j :: 0 <= j < |old(admins)| && old(admins)[j].email == key ==>
             if name == "" then status == ServerError
             else status == OK && newUsername == Some(name)
                  && admins == old(admins)[j := old(admins)[j].(username := name)]
    {
      if !Truthy(email) || !Truthy(username) {
        return BadRequest, None;
      }
      var key := NormalizeEmail(email.value);
      var found := FindFirst(admins, (a: Admin) => a.email == key);
      if found.None? {
        return NotFound, None;
      }
      var j := found.value;
      var doc := admins[j].(username := Trim(username.value));
      var saved := Save(Some(admins[j]), doc);
      if saved.None? {
        return ServerError, None;
      }
      UpdateKeepsDistinct(admins, j, saved.value, AdminId);
      UpdateKeepsDistinct(admins, j, saved.value, AdminEmail);
      admins := admins[j := saved.value];
      status, newUsername := OK, Some(saved.value.username);
    }
  }
}
