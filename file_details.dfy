/**
 * The record the file picker works on: a file's leaf name, its directory and the name of the
 * project that owns it. Each property is a getter and a setter over its own private field.
 */
module Details {

  class FileDetails {
    var fileName: string
    var path: string
    var project: string

    /** A new record; the three properties start empty. */
    constructor ()
      ensures fileName == "" && path == "" && project == ""
    {
      fileName, path, project := "", "", "";
    }

    function GetFileName(): string
      reads this
    {
      fileName
    }

    function GetPath(): string
      reads this
    {
      path
    }

    function GetProject(): string
      reads this
    {
      project
    }

    /** After the assignment the getter yields `value`; the other two properties keep theirs. */
    method SetFileName(value: string)
      modifies this`fileName
      ensures GetFileName() == value
      ensures GetPath() == old(GetPath()) && GetProject() == old(GetProject())
    {
      fileName := value;
    }

    /** After the assignment the getter yields `value`; the other two properties keep theirs. */
    method SetPath(value: string)
      modifies this`path
      ensures GetPath() == value
      ensures GetFileName() == old(GetFileName()) && GetProject() == old(GetProject())
    {
      path := value;
    }

    /** After the assignment the getter yields `value`; the other two properties keep theirs. */
    method SetProject(value: string)
      modifies this`project
      ensures GetProject() == value
      ensures GetFileName() == old(GetFileName()) && GetPath() == old(GetPath())
    {
      project := value;
    }
  }
}
