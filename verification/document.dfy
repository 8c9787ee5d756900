/** The document agent's tools: logging in to Google, which sets the context's
    login flag, and creating the research document, which logs in first only
    when the flag is not yet set and records the new document in the context. */
module Document {
  import opened Wrappers
  import opened ComputerUse
  import opened RunContext

  datatype DocumentInfo = DocumentInfo(title: string, docId: string, url: string, sections: seq<string>)

  datatype LoginReport = LoginReport(status: string, message: string)

  const LoginSuccess := LoginReport("success", "Logged into Google Drive")

  /** `login_to_google`: runs the Drive login with the Google credentials and
      sets the login flag; nothing else in the context changes. */
  method LoginToGoogle(ctx: Context) returns (report: LoginReport)
    modifies ctx, ctx.session
    ensures ctx.googleLoggedIn
    ensures ctx.session.tasks ==
      old(ctx.session.tasks) + [DriveLogin(ctx.credentials.googleUsername, ctx.credentials.googlePassword)]
    ensures ctx.vectorStoreId == old(ctx.vectorStoreId) && ctx.document == old(ctx.document)
    ensures report == LoginSuccess
  {
    var _ := GoogleDriveLogin(ctx.session, ctx.credentials.googleUsername, ctx.credentials.googlePassword);
    ctx.googleLoggedIn := true;
    report := LoginSuccess;
  }

  /** The browser tasks `create_research_document` runs: the login only when
      the flag is not set, then the document creation. */
  function CreationTasks(loggedIn: bool, ctx: Context, title: string, sections: seq<string>): (ts: seq<BrowserTask>)
    ensures |ts| == if loggedIn then 1 else 2
    ensures ts[|ts| - 1] == CreateDoc(title, sections)
    ensures !loggedIn ==> ts[0] == DriveLogin(ctx.credentials.googleUsername, ctx.credentials.googlePassword)
  {
    (if loggedIn then [] else [DriveLogin(ctx.credentials.googleUsername, ctx.credentials.googlePassword)])
      + [CreateDoc(title, sections)]
  }

  /** `create_research_document`: logs in unless already logged in, creates
      the document with the given sections, records it in the context and
      returns its title, id, URL and sections. */
  method CreateResearchDocument(ctx: Context, title: string, sections: seq<string>) returns (info: DocumentInfo)
    modifies ctx, ctx.session
    ensures ctx.session.tasks == old(ctx.session.tasks) + CreationTasks(old(ctx.googleLoggedIn), ctx, title, sections)
    ensures ctx.googleLoggedIn
    ensures ctx.document == Some(DocRecord(DocId(title), DocUrl(title), title))
    ensures ctx.vectorStoreId == old(ctx.vectorStoreId)
    ensures info == DocumentInfo(title, DocId(title), DocUrl(title), sections)
  {
    if !ctx.googleLoggedIn {
      var _ := LoginToGoogle(ctx);
    }
    var docInfo := CreateGoogleDoc(ctx.session, title, Some(sections));
    ctx.document := Some(docInfo);
    info := DocumentInfo(title, docInfo.id, docInfo.url, sections);
  }
}
