/** The uploaded photographs and the exact-name lookup `get_file_by_name`. */
module Uploads {
  import opened Wrappers

  /** One uploaded file: its file name and its bytes. Two uploads may share a name. */
  datatype Upload = Upload(name: string, content: seq<bv8>)

  /** The first upload in `files` whose name is exactly `name`, if there is one. */
  function FileByName(name: string, files: seq<Upload>): (r: Option<Upload>)
    ensures r.Some? ==> r.value in files && r.value.name == name
  {
    if |files| == 0 then None
    else if files[0].name == name then Some(files[0])
    else FileByName(name, files[1..])
  }

  /** The lookup finds the first file of that name, and finds nothing exactly when no file has it. */
  lemma {:induction false} FileByNameSpec(name: string, files: seq<Upload>)
    ensures FileByName(name, files).None? <==> forall k :: 0 <= k < |files| ==> files[k].name != name
    ensures FileByName(name, files).Some? ==>
      exists i :: 0 <= i < |files| && files[i] == FileByName(name, files).value && files[i].name == name &&
        forall j :: 0 <= j < i ==> files[j].name != name
  {
    if |files| > 0 && files[0].name != name {
      FileByNameSpec(name, files[1..]);
      if FileByName(name, files[1..]).Some? {
        var i :| 0 <= i < |files[1..]| && files[1..][i] == FileByName(name, files[1..]).value &&
          files[1..][i].name == name && forall j :: 0 <= j < i ==> files[1..][j].name != name;
        assert files[i + 1] == FileByName(name, files).value;
        assert forall j :: 0 <= j < i + 1 ==> files[j].name != name by {
          forall j | 0 < j < i + 1 ensures files[j].name != name {
            assert files[j] == files[1..][j - 1];
          }
        }
      } else {
        forall k | 0 <= k < |files| ensures files[k].name != name {
          if k > 0 { assert files[k] == files[1..][k - 1]; }
        }
      }
    }
  }

  /** A file of name `name` found at index `i` with none before it is what the lookup returns. */
  lemma {:induction false} FileByNameAt(name: string, files: seq<Upload>, i: nat)
    requires i < |files| && files[i].name == name
    requires forall j :: 0 <= j < i ==> files[j].name != name
    ensures FileByName(name, files) == Some(files[i])
  {
    if i > 0 {
      FileByNameAt(name, files[1..], i - 1);
    }
  }

  /**
   * `get_file_by_name`: a linear scan with an early return. Rewinding the file to
   * offset 0 (`f.seek(0)`) concerns the stream cursor, which the model does not have.
   */
  method GetFileByName(name: string, files: seq<Upload>) returns (found: Option<Upload>)
    ensures found == FileByName(name, files)
    ensures found.Some? ==> found.value in files && found.value.name == name
  {
    var k := 0;
    while k < |files|
      invariant 0 <= k <= |files|
      invariant FileByName(name, files) == FileByName(name, files[k..])
    {
      assert files[k..][1..] == files[k + 1..];
      if files[k].name == name {
        return Some(files[k]);
      }
      k := k + 1;
    }
    return None;
  }
}
