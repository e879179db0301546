/**
 * The payload extractor: MIME trees, their depth-first flattening into leaves
 * (`_get_email_messages`, `read_email_payload`), the classification of each leaf
 * into text (`_read_email_text`) and the selection of document attachments
 * (`_read_attachments`, `read_email_attachments`).
 */
module Mime {
  import opened Wrappers
  import opened Strings
  import Filenames

  newtype byte = b: int | 0 <= b < 256

  /** A content type as `get_content_type()` reports it, which is always `maintype/subtype`. */
  type MimeType = s: string | '/' in s witness "text/plain"

  /**
   * A non-multipart entity inside a multipart payload: its content type, its
   * Content-Transfer-Encoding header, the `name` parameter of its Content-Type and
   * its transfer-decoded payload (`get_payload(decode=True)`).
   */
  datatype Leaf = Leaf(contentType: MimeType, encoding: Option<string>, name: Option<string>, payload: seq<byte>)

  /** An element of a multipart payload: a leaf entity, a multipart entity, or a Python list or tuple of parts. */
  datatype Part =
    | Single(leaf: Leaf)
    | Multipart(children: seq<Part>)
    | Group(items: seq<Part>)

  /** The body of a message: the payload string of a non-multipart message, or the parts of a multipart one. */
  datatype Body = RawBody(text: string) | MultipartBody(parts: seq<Part>)

  /** One element of the list the extractor works on: the raw payload string or a leaf entity. */
  datatype Item = RawItem(text: string) | LeafItem(leaf: Leaf)

  /**
   * The library calls the extractor depends on: UTF-8 decoding with errors ignored,
   * and `get_html_text` (visible text of an HTML document, None when it has no body).
   */
  datatype Codecs = Codecs(utf8: seq<byte> -> string, htmlText: string -> Option<string>)

  /** The triple `(content_type, encoding, text)` produced per leaf. */
  datatype Extracted = Extracted(contentType: string, encoding: string, text: Option<string>)

  /** An attachment file: its name (relative to the text output directory) and its bytes. */
  datatype Attachment = Attachment(fileName: string, data: seq<byte>)

  // ---------------------------------------------------------------------------
  // Flattening
  // ---------------------------------------------------------------------------

  /** The leaves of a payload list, depth first and left to right (`_get_email_messages`). */
  function FlattenAll(ps: seq<Part>): seq<Leaf>
    decreases ps
  {
    if ps == [] then [] else FlattenPart(ps[0]) + FlattenAll(ps[1..])
  }

  /** The leaves of one payload element. */
  function FlattenPart(p: Part): seq<Leaf>
    decreases p
  {
    match p
    case Single(l) => [l]
    case Multipart(cs) => FlattenAll(cs)
    case Group(cs) => FlattenAll(cs)
  }

  /** `l` is one of the leaves somewhere inside `p`. */
  predicate OccursIn(l: Leaf, p: Part)
    decreases p
  {
    match p
    case Single(l') => l == l'
    case Multipart(cs) => exists i | 0 <= i < |cs| :: OccursIn(l, cs[i])
    case Group(cs) => exists i | 0 <= i < |cs| :: OccursIn(l, cs[i])
  }

  /** Flattening a concatenation of payload lists concatenates their flattenings. */
  lemma {:induction false} FlattenAppend(a: seq<Part>, b: seq<Part>)
    ensures FlattenAll(a + b) == FlattenAll(a) + FlattenAll(b)
    decreases a
  {
    if a == [] {
      assert a + b == b;
    } else {
      assert (a + b)[1..] == a[1..] + b;
      FlattenAppend(a[1..], b);
    }
  }

  /** The leaves of a payload list are split at any child: the child's leaves sit between those before and after it. */
  lemma {:induction false} FlattenAt(ps: seq<Part>, i: nat)
    requires i < |ps|
    ensures FlattenAll(ps) == FlattenAll(ps[..i]) + FlattenPart(ps[i]) + FlattenAll(ps[i + 1..])
  {
    assert ps == ps[..i] + ps[i..];
    FlattenAppend(ps[..i], ps[i..]);
    assert ps[i..][1..] == ps[i + 1..];
  }

  /** A leaf is produced by flattening exactly when it occurs in one of the children. */
  lemma {:induction false} FlattenAllMembers(ps: seq<Part>, l: Leaf)
    ensures l in FlattenAll(ps) <==> exists i | 0 <= i < |ps| :: OccursIn(l, ps[i])
    decreases ps
  {
    if ps != [] {
      FlattenPartMembers(ps[0], l);
      FlattenAllMembers(ps[1..], l);
      if exists i | 0 <= i < |ps| :: OccursIn(l, ps[i]) {
        var i :| 0 <= i < |ps| && OccursIn(l, ps[i]);
        if i > 0 {
          assert OccursIn(l, ps[1..][i - 1]);
        }
      }
      if exists i | 0 <= i < |ps[1..]| :: OccursIn(l, ps[1..][i]) {
        var i :| 0 <= i < |ps[1..]| && OccursIn(l, ps[1..][i]);
        assert OccursIn(l, ps[i + 1]);
      }
    }
  }

  /** A leaf is produced by flattening one part exactly when it occurs in that part. */
  lemma {:induction false} FlattenPartMembers(p: Part, l: Leaf)
    ensures l in FlattenPart(p) <==> OccursIn(l, p)
    decreases p
  {
    match p
    case Single(_) =>
    case Multipart(cs) => FlattenAllMembers(cs, l);
    case Group(cs) => FlattenAllMembers(cs, l);
  }

  /**
   * The list of items the extractor walks (`read_email_payload`, lines 74-78): a
   * non-multipart message contributes its payload string as a single item, a
   * multipart message its flattened leaves.
   */
  function MessageItems(body: Body): (r: seq<Item>)
    ensures body.RawBody? ==> r == [RawItem(body.text)]
    ensures body.MultipartBody? ==> forall i :: 0 <= i < |r| ==> r[i].LeafItem?
    ensures body.MultipartBody? ==>
      |r| == |FlattenAll(body.parts)| && forall i :: 0 <= i < |r| ==> r[i].leaf == FlattenAll(body.parts)[i]
  {
    match body
    case RawBody(s) => [RawItem(s)]
    case MultipartBody(ps) =>
      var leaves := FlattenAll(ps);
      seq(|leaves|, i requires 0 <= i < |leaves| => LeafItem(leaves[i]))
  }

  // ---------------------------------------------------------------------------
  // Text extraction
  // ---------------------------------------------------------------------------

  /** `_read_email_text`: the content type, the transfer encoding and the text of one item. */
  function ReadText(codecs: Codecs, item: Item): (r: Extracted)
    // 'NA' marks exactly the raw string, because a real content type always holds a '/'
    ensures r.contentType == "NA" <==> item.RawItem?
    ensures item.RawItem? ==> r == Extracted("NA", "NA", codecs.htmlText(item.text))
    ensures item.LeafItem? ==>
      r.contentType == item.leaf.contentType && r.encoding == item.leaf.encoding.GetOr("NA")
    ensures item.LeafItem? && Contains(r.contentType, "text/plain") ==>
      r.text == Some(codecs.utf8(item.leaf.payload))
    ensures item.LeafItem? && !Contains(r.contentType, "text/plain") && Contains(r.contentType, "text/html") ==>
      r.text == codecs.htmlText(codecs.utf8(item.leaf.payload))
    // every other content type gives no text
    ensures item.LeafItem? && !Contains(r.contentType, "text/plain") && !Contains(r.contentType, "text/html") ==>
      r.text.None?
  {
    match item
    case RawItem(s) => Extracted("NA", "NA", codecs.htmlText(s))
    case LeafItem(l) =>
      var ct: string := l.contentType;
      var enc := l.encoding.GetOr("NA");
      if Contains(ct, "text/plain") then Extracted(ct, enc, Some(codecs.utf8(l.payload)))
      else if Contains(ct, "text/html") then Extracted(ct, enc, codecs.htmlText(codecs.utf8(l.payload)))
      // the source's `content_type == 'NA'` test cannot hold for a leaf entity
      else Extracted(ct, enc, None)
  }

  /** `read_email_payload`: one extracted triple per item, in traversal order. */
  function ReadEmailPayload(codecs: Codecs, body: Body): (r: seq<Extracted>)
    ensures |r| == |MessageItems(body)|
    ensures forall i :: 0 <= i < |r| ==> r[i] == ReadText(codecs, MessageItems(body)[i])
  {
    var items := MessageItems(body);
    seq(|items|, i requires 0 <= i < |items| => ReadText(codecs, items[i]))
  }

  // ---------------------------------------------------------------------------
  // Attachments
  // ---------------------------------------------------------------------------

  /** The content types whose leaves are written out as attachments. */
  predicate IsDocumentType(ct: string) {
    ct == "application/msword" || ct == "application/pdf"
  }

  /** `_read_attachments`: the file written for one item under `prefix`, if any. */
  function ReadAttachment(prefix: string, item: Item): (r: Option<Attachment>)
    ensures r.Some? <==> item.LeafItem? && IsDocumentType(item.leaf.contentType)
    ensures r.Some? ==>
      r.value == Attachment(prefix + "-" + Filenames.CleanFilename(item.leaf.name), item.leaf.payload)
    // the name appended to the prefix contains no path separator or other forbidden character
    ensures r.Some? ==> forall i :: |prefix| <= i < |r.value.fileName| ==> !Filenames.IsForbidden(r.value.fileName[i])
  {
    match item
    case RawItem(_) => None
    case LeafItem(l) =>
      if IsDocumentType(l.contentType) then
        Filenames.CleanSuffixSafe(prefix, l.name);
        Some(Attachment(prefix + "-" + Filenames.CleanFilename(l.name), l.payload))
      else None
  }

  /** `read_email_attachments`: the attachment produced for each item, in traversal order. */
  function ReadEmailAttachments(prefix: string, body: Body): (r: seq<Option<Attachment>>)
    ensures |r| == |MessageItems(body)|
    ensures forall i :: 0 <= i < |r| ==> r[i] == ReadAttachment(prefix, MessageItems(body)[i])
  {
    var items := MessageItems(body);
    seq(|items|, i requires 0 <= i < |items| => ReadAttachment(prefix, items[i]))
  }

  /** A non-multipart message never yields an attachment: its only item is the raw payload string. */
  lemma RawBodyHasNoAttachments(prefix: string, text: string)
    ensures ReadEmailAttachments(prefix, RawBody(text)) == [None]
  {
  }

  /** `image/png` names neither a plain-text nor an HTML type. */
  lemma PngIsNotText(ct: string)
    requires ct == "image/png"
    ensures !Contains(ct, "text/plain") && !Contains(ct, "text/html")
  {
    forall i | 0 <= i <= |ct|
      ensures !OccursAt(ct, "text/html", i) && !OccursAt(ct, "text/plain", i)
    {
      // both needles start with 't' and only position 0 leaves room for them
      if i == 0 {
        assert ct[..9][0] != 't';
      }
    }
  }

  /** A leaf of any other type, such as `image/png`, yields neither text nor an attachment. */
  lemma OtherLeafIgnored(codecs: Codecs, prefix: string, l: Leaf)
    requires l.contentType == "image/png"
    ensures ReadText(codecs, LeafItem(l)).text.None?
    ensures ReadAttachment(prefix, LeafItem(l)).None?
  {
    PngIsNotText(l.contentType);
  }
}
