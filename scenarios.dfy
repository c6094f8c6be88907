/** Request sequences against fresh routers, as a client would send them: each method
    starts from empty collections and states what the responses and the stored state
    are at the end. */
module Scenarios {
  import opened Wrappers
  import opened Http
  import opened Text
  import opened Bcrypt
  import opened Mailer
  import opened AdminModel
  import opened ComplaintModel
  import opened Auth
  import opened ComplaintRoutes

  /** Registering a second account under the same address, written with other letter
      case or surrounding whitespace, is refused with 400 and stores nothing more. */
  method RegisterTwice(email: string, variant: string, pre: string, post: string, password: string)
    returns (first: int, second: int, accounts: nat)
    requires ToLower(variant) == ToLower(email)
    requires AllWhitespace(pre) && AllWhitespace(post)
    ensures first == Created && second == BadRequest && accounts == 1
  {
    var auth := new AuthRouter();
    first := auth.Register(Some("student"), Some(email), Some(password), Some("S1"), Some("cse"),
                           Some("student"));
    NormalizeEmailIgnoresCaseAndPadding(variant, email, pre, post);
    assert auth.users[0].email == NormalizeEmail(pre + variant + post);
    second := auth.Register(Some("student"), Some(pre + variant + post), Some(password), Some("S1"),
                            Some("cse"), Some("student"));
    accounts := |auth.users|;
  }

  /** A fresh account store holding one student, registered with `email` and
      `password`. */
  method StoreWithStudent(email: string, password: string) returns (auth: AuthRouter)
    ensures fresh(auth) && auth.Valid()
    ensures auth.users == [User(0, Some("student"), NormalizeEmail(email), Trim(password),
                                Some("student"), Some("S1"), Some("cse"), None)]
  {
    auth := new AuthRouter();
    var registered := auth.Register(Some("student"), Some(email), Some(password), Some("S1"),
                                    Some("cse"), Some("student"));
  }

  /** A student whose password was stored as plain text logs in with it, and the login
      replaces it by its hash, which the same password matches from then on. */
  method LegacyLoginMigrates(email: string, password: string)
    returns (loggedIn: int, stored: string)
    requires email != "" && password != "" && !IsHashed(Trim(password))
    ensures loggedIn == OK
    ensures IsHashed(stored) && Compare(Trim(password), stored)
    ensures CheckStudentPassword(stored, password) == Accepted
  {
    var auth := StoreWithStudent(email, password);
    var before := auth.users;
    RegisteredPasswordAccepted(password, password);
    var h := Hash(Trim(password));
    assert CheckStudentPassword(before[0].password, password) == AcceptedLegacy(h);
    var user: Option<SessionUser>;
    loggedIn, user := auth.Login(Some(email), Some(password));
    assert auth.users == before[0 := before[0].(password := h)];
    stored := auth.users[0].password;
    LegacyMigrationThenHashedLogin(Trim(password), password);
  }

  /** An admin registered with all fields set can log in with the same password and
      department. */
  method AdminRegisterThenLogin(username: string, email: string, password: string, department: string)
    returns (registered: int, loggedIn: int, user: Option<SessionUser>)
    requires username != "" && Trim(email) != "" && Trim(password) != "" && department != ""
    ensures registered == Created && loggedIn == OK
    ensures user.Some? && user.value.IsAdmin() && user.value.email == NormalizeEmail(email)
  {
    var auth := new AuthRouter();
    var key := NormalizeEmail(email);
    var doc := Admin(0, username, key, Trim(password), department, None);
    assert HasRequiredFields(doc);
    registered := auth.RegisterAdmin(Some(username), Some(email), Some(password), Some(department));
    var saved := auth.admins[0];
    assert Save(None, doc) == Some(saved);
    assert MatchPassword(saved, Trim(password));
    loggedIn, user := auth.AdminLogin(Some(email), Some(password), Some(department));
  }

  /** A fresh complaint router over an account store without admins, after one
      complaint without attachments has been submitted to it. */
  method StoreWithComplaint(studentId: string, name: string, email: string, complaintType: string,
                            department: string, date: string, text: string)
    returns (auth: AuthRouter, router: ComplaintRouter, created: int)
    requires studentId != "" && name != "" && email != ""
    requires complaintType != "" && department != "" && date != "" && text != ""
    ensures fresh(auth) && fresh(router) && router.Valid()
    ensures router.accounts == auth && auth.admins == [] && router.nextId == 1
    ensures created == Created
    ensures router.complaints == [Complaint(0, studentId, name, email, complaintType, department,
                                            date, text, DefaultStatus, [])]
    ensures router.outbox == [ConfirmationMail(router.complaints[0])]
  {
    auth := new AuthRouter();
    router := new ComplaintRouter(auth);
    assert auth.admins == [];
    var none: seq<UploadedFile> := [];
    assert AttachmentsAsBuilt(none) == [];
    var doc := NewComplaint(0, Some(studentId), Some(name), Some(email), Some(complaintType),
                            Some(department), Some(date), Some(text), []);
    assert SchemaValid(doc);
    NoAdminsNoNotifications(auth.admins, doc);
    assert UploadAccepted(none);
    created := router.Create(Some(studentId), Some(name), Some(email), Some(complaintType),
                             Some(department), Some(date), Some(text), none);
    assert router.complaints == [doc];
  }

  /** A complaint submitted without attachments while no admin exists is stored as
      "Pending", its submitter alone is mailed, and it is listed for its student. */
  method SubmitThenList(studentId: string, name: string, email: string, complaintType: string,
                        department: string, date: string, text: string)
    returns (created: int, listed: seq<Complaint>, mails: seq<Mail>)
    requires studentId != "" && name != "" && email != ""
    requires complaintType != "" && department != "" && date != "" && text != ""
    ensures created == Created
    ensures |listed| == 1 && listed[0].status == DefaultStatus && listed[0].complaintText == text
    ensures mails == [ConfirmationMail(listed[0])]
  {
    var auth, router;
    auth, router, created := StoreWithComplaint(studentId, name, email, complaintType, department,
                                                date, text);
    var code;
    code, listed := router.ListByStudent(studentId);
    assert router.complaints[0] in listed;
    mails := router.outbox;
  }

  /** Resolving a stored complaint mails its submitter the new status. */
  method SubmitThenResolve(studentId: string, email: string, text: string)
    returns (resolved: int, mail: Mail, status: string)
    requires studentId != "" && email != "" && text != ""
    ensures resolved == OK && status == "Resolved"
    ensures mail.to == email && IsSubstring("Resolved", mail.text) && IsSubstring(text, mail.text)
  {
    var auth, router, created := StoreWithComplaint(studentId, "n", email, "t", "d", "2024-01-01", text);
    var before := router.complaints;
    assert before[0].id == 0;
    resolved := router.UpdateStatus(0, Some("Resolved"));
    mail := router.outbox[|router.outbox| - 1];
    status := router.complaints[0].status;
  }

  /** Only the owner deletes: another student is refused with 403, then the owner's
      request removes the complaint. */
  method OwnerDeletes(studentId: string, other: string)
    returns (refused: int, deleted: int, remaining: seq<Complaint>)
    requires studentId != "" && other != studentId
    ensures refused == Forbidden && deleted == OK && remaining == []
  {
    var auth, router, created := StoreWithComplaint(studentId, "n", "e", "t", "d", "2024-01-01", "x");
    var before := router.complaints;
    assert before[0].id == 0 && before[0].studentId == studentId;
    refused := router.DeleteByStudent(0, Some(other));
    deleted := router.DeleteByStudent(0, Some(studentId));
    remaining := router.complaints;
  }

  /** The status route refuses a status outside its allow-list, but the owner's edit
      route stores it. */
  method StatusAllowListBypass(studentId: string, status: string)
    returns (viaStatusRoute: int, viaEdit: int, stored: string)
    requires studentId != ""
    requires status !in StatusAllowList
    ensures viaStatusRoute == BadRequest && viaEdit == OK && stored == status
  {
    var auth, router, created := StoreWithComplaint(studentId, "n", "e", "t", "d", "2024-01-01", "x");
    viaStatusRoute := router.UpdateStatus(0, Some(status));
    var before := router.complaints;
    assert before[0].id == 0 && before[0].studentId == studentId;
    EditBypassesAllowList(before[0], status);
    viaEdit := router.EditByStudent(0, Some(studentId),
                                    ComplaintPatch(None, None, None, None, None, None, Some(status)));
    stored := router.complaints[0].status;
  }

  /** A submission with an accepted file fails validation (the attachment has no path):
      the answer is 500, nothing is stored and no mail is sent. */
  method SubmitWithAttachment(file: UploadedFile)
    returns (code: int, stored: nat, sent: nat)
    requires FileFilter(file.mimetype) && |file.buffer| <= MaxFileSize
    ensures code == ServerError && stored == 0 && sent == 0
  {
    var auth := new AuthRouter();
    var router := new ComplaintRouter(auth);
    UploadsFailValidation(0, Some("S1"), Some("n"), Some("e"), Some("t"), Some("d"), Some("2024-01-01"),
                          Some("x"), [file]);
    code := router.Create(Some("S1"), Some("n"), Some("e"), Some("t"), Some("d"), Some("2024-01-01"),
                          Some("x"), [file]);
    stored, sent := |router.complaints|, |router.outbox|;
  }
}
