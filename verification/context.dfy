/** The shared run context the coordinator hands to every agent tool: the
    credentials and browser session it is created with, and the entries the
    tools add to it as the workflow proceeds. */
module RunContext {
  import opened Wrappers
  import opened Security
  import opened ComputerUse

  /** Python truthiness of an optional string entry: a missing entry, `None`
      and the empty string are all false. */
  predicate Truthy(v: Option<string>)
  {
    v.Some? && v.value != ""
  }

  class Context {
    const credentials: Credentials
    const session: BrowserSession
    const researchQuestion: string
    const targetJournal: Option<string>
    /** `google_logged_in`, absent (false) until a login tool sets it. */
    var googleLoggedIn: bool
    /** `vector_store_id`, absent until the paper index is created. */
    var vectorStoreId: Option<string>
    /** `document`, the record of the created document. */
    var document: Option<DocRecord>

    /** The context the workflow starts with: the four entries it is built
        from and nothing else. */
    constructor (credentials: Credentials, session: BrowserSession, researchQuestion: string,
                 targetJournal: Option<string>)
      ensures this.credentials == credentials && this.session == session
      ensures this.researchQuestion == researchQuestion && this.targetJournal == targetJournal
      ensures !googleLoggedIn && vectorStoreId == None && document == None
    {
      this.credentials := credentials;
      this.session := session;
      this.researchQuestion := researchQuestion;
      this.targetJournal := targetJournal;
      googleLoggedIn := false;
      vectorStoreId := None;
      document := None;
    }
  }
}
