/**
 * The entities shared by the ingestion engine, the session and the upload orchestrator:
 * users, wikis, templates, files and the mutable `Picture`.
 */
module Model {
  import opened Wrappers

  /** Upload state of one picture. `UploadedSuccessfully` is final: no upload task is submitted for it again. */
  datatype State = Pending | UploadedSuccessfully | FailedUpload

  datatype User = User(login: string, password: string)

  /** A configured remote site and the identity used on it. */
  datatype Wiki = Wiki(name: string, url: string, user: User)

  datatype Template = Template(name: string, text: string)

  /** A local file, identified by its absolute path. */
  datatype File = File(absolutePath: string)

  /** Directory name -> sanitised tag name -> tag description. */
  type Metadata = map<string, map<string, string>>

  /**
   * What a picture's description was last rendered for. Rendering is a pure function of the
   * picture's template, its metadata and the user, so recording the user fixes the text.
   */
  datatype Rendering = NotRendered | RenderedFor(user: User)

  /** One image file with its extracted metadata, rendered description and upload state. */
  class Picture {
    const file: File
    const fileName: string
    const template: Template
    const metadata: Metadata
    const thumbnail: seq<bv8>
    var rendering: Rendering
    var state: State

    constructor (file: File, fileName: string, template: Template, metadata: Metadata, thumbnail: seq<bv8>)
      ensures this.file == file && this.fileName == fileName && this.template == template
      ensures this.metadata == metadata && this.thumbnail == thumbnail
      ensures rendering == NotRendered && state == Pending
    {
      this.file := file;
      this.fileName := fileName;
      this.template := template;
      this.metadata := metadata;
      this.thumbnail := thumbnail;
      rendering := NotRendered;
      state := Pending;
    }

    /** Re-renders the description for `user`; the upload state is not touched. */
    method RenderTemplate(user: User)
      modifies this`rendering
      ensures rendering == RenderedFor(user)
    {
      rendering := RenderedFor(user);
    }
  }
}
