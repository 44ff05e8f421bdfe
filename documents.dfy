/**
 * The artefacts the pipeline handles: PDF files in the download folder, LangChain
 * documents, and the FAISS index reduced to the documents it holds.
 */
module Documents {
  import opened Wrappers

  /**
   * A PDF file as the readers see it: the /CreationDate and /ModDate metadata
   * entries, and the text extracted from each page. `pages` is None when the
   * PDF reader raises on the file.
   */
  datatype PdfDoc = PdfDoc(creationDate: Option<string>, modDate: Option<string>, pages: Option<seq<string>>)

  /** A LangChain Document: page content and the optional `source_file` metadata entry. */
  datatype Doc = Doc(content: string, sourceFile: Option<string>)

  /** A FAISS vector store, reduced to the documents it holds in insertion order. */
  datatype Index = Index(docs: seq<Doc>)

  /** `FAISS.from_documents`: a fresh index of exactly these documents; it raises on an empty list. */
  function FromDocuments(docs: seq<Doc>): (r: Outcome<Index>)
    ensures r.Returned? <==> docs != []
  {
    if docs == [] then Raised("IndexError: list index out of range") else Returned(Index(docs))
  }

  /** `index.add_documents(docs)`: the new documents go after the old ones. */
  function AddDocuments(idx: Index, docs: seq<Doc>): Index {
    Index(idx.docs + docs)
  }

  /** The tag the iframe page parser finds: no iframe, an iframe without src, or its src. */
  datatype IframeTag = NoIframe | IframeNoSrc | IframeSrc(src: string)

  /**
   * An HTTP response: whether its status passes `raise_for_status`, the PDF its
   * body holds, and the first iframe of its body when parsed as HTML.
   */
  datatype Response = Response(ok: bool, body: PdfDoc, iframe: IframeTag)

  /** `listing` is what `os.listdir` returns for a folder holding `names`: each name exactly once. */
  predicate IsListing(listing: seq<string>, names: set<string>) {
    && (forall i, j :: 0 <= i < j < |listing| ==> listing[i] != listing[j])
    && (forall n :: n in listing ==> n in names)
    && (forall n :: n in names ==> n in listing)
  }

  /** A download folder: file name to file. */
  class Folder {
    var files: map<string, PdfDoc>

    constructor (initial: map<string, PdfDoc>)
      ensures files == initial
    {
      files := initial;
    }

    /** `open(path, "wb").write(...)`: creates or overwrites the file. */
    method Write(name: string, doc: PdfDoc)
      modifies this
      ensures files == old(files)[name := doc]
    {
      files := files[name := doc];
    }

    /** `os.rename(src, dst)`: raises when src is missing, otherwise moves it (replacing dst). */
    method Rename(src: string, dst: string) returns (ok: bool)
      modifies this
      ensures ok <==> src in old(files)
      ensures ok ==> files == (old(files) - {src})[dst := old(files)[src]]
      ensures !ok ==> files == old(files)
    {
      ok := src in files;
      if ok {
        files := (files - {src})[dst := files[src]];
      }
    }

    /** `os.listdir`: every file name exactly once, in an order the model leaves open. */
    method ListDir() returns (listing: seq<string>)
      ensures IsListing(listing, files.Keys)
    {
      listing := [];
      var rest := files.Keys;
      while rest != {}
        invariant rest <= files.Keys
        invariant forall i, j :: 0 <= i < j < |listing| ==> listing[i] != listing[j]
        invariant forall n :: n in listing ==> n in files && n !in rest
        invariant forall n :: n in files ==> n in listing || n in rest
        decreases rest
      {
        var n :| n in rest;
        listing := listing + [n];
        rest := rest - {n};
      }
    }

    /** `os.remove(name)` on a file that is present. */
    method Remove(name: string)
      modifies this
      ensures files == old(files) - {name}
    {
      files := files - {name};
    }
  }
}
