/** Streams (resources/lib/classes/StremioStream.py): the keyword rewrite
    applied before construction and the check that a stream names
    something to play. */
module StremioStream {
  import opened Wrappers
  import opened Text
  import opened Utils

  /** `StremioStream.transform_dict`, own part: a "title" entry is copied
      over "description" in the incoming dictionary (a new key goes last,
      an existing one keeps its place). The generic conversion it then
      delegates to is not part of this model. */
  method TransformDict(data: Dict)
    requires data.Valid()
    modifies data
    ensures data.Valid()
    ensures "title" in old(data.entries) ==>
              data.entries == old(data.entries)["description" := old(data.entries)["title"]]
              && data.keys == if "description" in old(data.entries) then old(data.keys)
                              else old(data.keys) + ["description"]
    ensures "title" !in old(data.entries) ==>
              data.entries == old(data.entries) && data.keys == old(data.keys)
  {
    if "title" in data.entries {
      if "description" !in data.entries {
        data.keys := data.keys + ["description"];
      }
      data.entries := data.entries["description" := data.entries["title"]];
    }
  }

  datatype Stream = Stream(
    url: Option<string>,
    ytId: Option<string>,
    infoHash: Option<string>,
    fileIdx: Option<int>,
    externalUrl: Option<string>,
    name: Option<string>,
    description: Option<string>,
    sources: seq<string>)

  /** Construction with `__post_init__`'s check: ValueError("No resource
      given") unless at least one of url, ytId, infoHash and externalUrl is
      a non-empty string. */
  function NewStream(url: Option<string>, ytId: Option<string>, infoHash: Option<string>,
                     fileIdx: Option<int>, externalUrl: Option<string>, name: Option<string>,
                     description: Option<string>, sources: seq<string>): (r: Result<Stream>)
    ensures r.Failure? <==> !Truthy(url) && !Truthy(ytId) && !Truthy(infoHash) && !Truthy(externalUrl)
    ensures r.Failure? ==> r.error == NoResource
    ensures r.Success? ==> r.value == Stream(url, ytId, infoHash, fileIdx, externalUrl, name, description, sources)
  {
    if !(Truthy(url) || Truthy(ytId) || Truthy(infoHash) || Truthy(externalUrl)) then Failure(NoResource)
    else Success(Stream(url, ytId, infoHash, fileIdx, externalUrl, name, description, sources))
  }
}
