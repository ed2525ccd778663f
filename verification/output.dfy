/** The output buffer the renderers append to (Go's bytes.Buffer). */
module Output {

  class Buffer {
    var content: string

    constructor ()
      ensures content == ""
    {
      content := "";
    }

    method WriteString(s: string)
      modifies this
      ensures content == old(content) + s
    {
      content := content + s;
    }
  }
}
