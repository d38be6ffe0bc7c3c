/** `DocumentProcessor`: a stored document's text is extracted by file type, then either
    every roster row or every chunk of a job description becomes a `DocumentChunk` with its
    metadata, added to the vector store one by one and committed to the database at the end.
    File parsing, the text splitter, the vector store and the database session are oracles. */
module DocProcessor {
  import opened Wrappers
  import Text
  import Records

  // ---------------------------------------------------------------- text extraction

  datatype FileKind = PdfFile | DocxFile | TxtFile | CsvFile

  function ParseFileKind(fileType: string): (k: Option<FileKind>)
    ensures k.Some? <==> fileType in ["pdf", "docx", "txt", "csv"]
  {
    if fileType == "pdf" then Some(PdfFile) else if fileType == "docx" then Some(DocxFile)
    else if fileType == "txt" then Some(TxtFile) else if fileType == "csv" then Some(CsvFile)
    else None
  }

  /** `_extract_text`: the reader the file type selects; an unknown type, or any exception
      the reader raises (`read` is its outcome), gives the empty text. */
  function ExtractText(fileType: string, read: FileKind -> Result<string, string>): (text: string)
    ensures ParseFileKind(fileType).None? ==> text == ""
    ensures ParseFileKind(fileType).Some? && read(ParseFileKind(fileType).value).Err? ==> text == ""
    ensures ParseFileKind(fileType).Some? && read(ParseFileKind(fileType).value).Ok? ==>
              text == read(ParseFileKind(fileType).value).value
  {
    match ParseFileKind(fileType)
    case None => ""
    case Some(k) => if read(k).Ok? then read(k).value else ""
  }

  // ---------------------------------------------------------------- metadata dictionaries

  datatype MetaValue = IntValue(i: int) | StrValue(s: string)

  /** A Python dict: (key, value) pairs in insertion order, keys unique. */
  type Dict = seq<(string, MetaValue)>

  function DictGet(d: Dict, k: string): Option<MetaValue> {
    if d == [] then None else if d[0].0 == k then Some(d[0].1) else DictGet(d[1..], k)
  }

  /** `d[k] = v`: an existing key keeps its place, a new one goes last. */
  function DictSet(d: Dict, k: string, v: MetaValue): (r: Dict)
    ensures DictGet(r, k) == Some(v)
    ensures forall k2 :: k2 != k ==> DictGet(r, k2) == DictGet(d, k2)
  {
    if d == [] then [(k, v)]
    else if d[0].0 == k then [(k, v)] + d[1..]
    else [d[0]] + DictSet(d[1..], k, v)
  }

  /** `d.update(row)`. */
  function DictUpdate(d: Dict, row: Records.Row): Dict
    decreases row
  {
    if row == [] then d else DictUpdate(DictSet(d, row[0].0, StrValue(row[0].1)), row[1..])
  }

  predicate DistinctKeys(row: Records.Row) {
    forall i, j :: 0 <= i < j < |row| ==> row[i].0 != row[j].0
  }

  /** After the update every column of the row reads as the row's value, overwriting a fixed
      key of the same name; every other key keeps its value. */
  lemma {:induction false} DictUpdateGet(d: Dict, row: Records.Row, k: string)
    requires DistinctKeys(row)
    ensures Records.Get(row, k).Some? ==> DictGet(DictUpdate(d, row), k) == Some(StrValue(Records.Get(row, k).value))
    ensures Records.Get(row, k).None? ==> DictGet(DictUpdate(d, row), k) == DictGet(d, k)
    decreases row
  {
    if row != [] {
      var d1 := DictSet(d, row[0].0, StrValue(row[0].1));
      assert DistinctKeys(row[1..]) by {
        forall i, j | 0 <= i < j < |row[1..]| ensures row[1..][i].0 != row[1..][j].0 {
          assert row[1..][i] == row[i + 1] && row[1..][j] == row[j + 1];
        }
      }
      DictUpdateGet(d1, row[1..], k);
      if row[0].0 == k {
        assert Records.Get(row[1..], k).None? by {
          forall j | 0 <= j < |row[1..]| ensures row[1..][j].0 != k {
            assert row[1..][j] == row[j + 1];
          }
        }
      }
    }
  }

  // ---------------------------------------------------------------- chunks

  datatype Chunk = Chunk(documentId: nat, chunkIndex: nat, text: string, metadata: Dict, vectorId: Option<string>)

  /** What will be indexed: a chunk's text and metadata, before the vector store is called. */
  datatype ChunkSpec = ChunkSpec(text: string, metadata: Dict)

  /** `", ".join(f"{k}: {v}" for k, v in row.items() if v)`. */
  function RowPairs(row: Records.Row): (ps: seq<string>)
    ensures |ps| <= |row|
  {
    if row == [] then []
    else (if row[0].1 != "" then [row[0].0 + ": " + row[0].1] else []) + RowPairs(row[1..])
  }

  function RowText(row: Records.Row): string {
    Text.Join(RowPairs(row), ", ")
  }

  /** Every column with a non-empty value contributes its `key: value` piece. */
  lemma {:induction false} RowPairsMembers(row: Records.Row)
    ensures forall i :: 0 <= i < |row| && row[i].1 != "" ==> row[i].0 + ": " + row[i].1 in RowPairs(row)
    ensures forall p :: p in RowPairs(row) ==> exists i :: 0 <= i < |row| && row[i].1 != "" && p == row[i].0 + ": " + row[i].1
  {
    if row != [] {
      RowPairsMembers(row[1..]);
      forall p | p in RowPairs(row)
        ensures exists i :: 0 <= i < |row| && row[i].1 != "" && p == row[i].0 + ": " + row[i].1
      {
        if p !in RowPairs(row[1..]) {
          assert row[0].1 != "" && p == row[0].0 + ": " + row[0].1;
        } else {
          var i :| 0 <= i < |row[1..]| && row[1..][i].1 != "" && p == row[1..][i].0 + ": " + row[1..][i].1;
          assert row[i + 1] == row[1..][i];
        }
      }
      forall i | 0 <= i < |row| && row[i].1 != "" ensures row[i].0 + ": " + row[i].1 in RowPairs(row) {
        if i > 0 {
          assert row[i] == row[1..][i - 1];
        }
      }
    }
  }

  /** `student_data.get('email', student_data.get('Email', ''))`. */
  function RowEmail(row: Records.Row): string {
    Records.GetChain(row, ["email", "Email"], "")
  }

  /** The metadata of roster row `index`: the fixed keys, then the row itself laid over them. */
  function StudentMetadata(documentId: nat, index: nat, row: Records.Row): Dict {
    DictUpdate(StudentBase(documentId, index, row), row)
  }

  function StudentSpecs(documentId: nat, rows: seq<Records.Row>): (specs: seq<ChunkSpec>)
    ensures |specs| == |rows|
    ensures forall i :: 0 <= i < |rows| ==> specs[i] == ChunkSpec(RowText(rows[i]), StudentMetadata(documentId, i, rows[i]))
  {
    seq(|rows|, i requires 0 <= i < |rows| => ChunkSpec(RowText(rows[i]), StudentMetadata(documentId, i, rows[i])))
  }

  function StudentBase(documentId: nat, index: nat, row: Records.Row): Dict {
    [("document_id", IntValue(documentId)), ("document_type", StrValue("student_data")),
     ("row_index", IntValue(index)), ("email", StrValue(RowEmail(row)))]
  }

  /** A row's metadata carries every column of the row, overriding a fixed key of the same
      name, and otherwise names the document and the row. */
  lemma StudentMetadataFields(documentId: nat, index: nat, row: Records.Row)
    requires DistinctKeys(row)
    ensures forall k :: Records.Get(row, k).Some? ==>
              DictGet(StudentMetadata(documentId, index, row), k) == Some(StrValue(Records.Get(row, k).value))
    ensures Records.Get(row, "document_id").None? ==>
              DictGet(StudentMetadata(documentId, index, row), "document_id") == Some(IntValue(documentId))
    ensures Records.Get(row, "row_index").None? ==>
              DictGet(StudentMetadata(documentId, index, row), "row_index") == Some(IntValue(index))
  {
    var base := StudentBase(documentId, index, row);
    assert StudentMetadata(documentId, index, row) == DictUpdate(base, row);
    forall k | Records.Get(row, k).Some?
      ensures DictGet(DictUpdate(base, row), k) == Some(StrValue(Records.Get(row, k).value))
    {
      DictUpdateGet(base, row, k);
    }
    DictUpdateGet(base, row, "document_id");
    DictUpdateGet(base, row, "row_index");
    assert base[0].0 != "row_index" && base[1].0 != "row_index" && base[2].0 == "row_index";
    assert DictGet(base, "row_index") == DictGet(base[1..], "row_index") == DictGet(base[2..], "row_index");
  }

  /** Without an `email` column the metadata's email is the `Email` column's value, or empty
      when the row has neither. */
  lemma StudentMetadataEmail(documentId: nat, index: nat, row: Records.Row)
    requires DistinctKeys(row) && Records.Get(row, "email").None?
    ensures Records.Get(row, "Email").Some? ==>
              DictGet(StudentMetadata(documentId, index, row), "email") == Some(StrValue(Records.Get(row, "Email").value))
    ensures Records.Get(row, "Email").None? ==>
              DictGet(StudentMetadata(documentId, index, row), "email") == Some(StrValue(""))
  {
    var base := StudentBase(documentId, index, row);
    assert StudentMetadata(documentId, index, row) == DictUpdate(base, row);
    DictUpdateGet(base, row, "email");
    assert base[0].0 != "email" && base[1].0 != "email" && base[2].0 != "email" && base[3].0 == "email";
    assert DictGet(base, "email") == DictGet(base[1..], "email") == DictGet(base[2..], "email") == DictGet(base[3..], "email");
    var keys: seq<string> := ["email", "Email"];
    assert keys[0] == "email" && keys[1] == "Email";
    Records.GetChainFirstPresent(row, keys, "");
    if Records.Get(row, "Email").Some? {
      assert forall j :: 0 <= j < 1 ==> Records.Get(row, keys[j]).None?;
    }
  }

  // ---------------------------------------------------------------- job description names

  /** The stem `os.path.splitext` keeps: everything before the last dot of the last path
      component, unless that component has only dots before it. */
  function Stem(name: string): (stem: string)
    ensures |stem| <= |name| && name[..|stem|] == stem
  {
    var sep := Text.LastIndexOf(name, '/');
    var dot := Text.LastIndexOf(name, '.');
    if dot > sep && exists k :: sep + 1 <= k < dot && name[k] != '.' then name[..dot] else name
  }

  /** Company and role: parts 0 and 1 of the stem split on `_`, role defaulting to Unknown.
      Part 0 always exists, so the company never takes its default. */
  function CompanyRole(filename: string): (cr: (string, string))
    ensures cr.0 == Text.Split(Stem(filename), '_')[0]
  {
    var parts := Text.Split(Stem(filename), '_');
    (parts[0], if |parts| > 1 then parts[1] else "Unknown")
  }

  /** A name written `<company>_<role>.<ext>` gives back exactly that company and role. */
  lemma CompanyRoleRoundTrip(company: string, role: string, ext: string)
    requires company != [] && '_' !in company && '.' !in company && '/' !in company
    requires '_' !in role && '.' !in role && '/' !in role
    requires '.' !in ext && '/' !in ext
    ensures CompanyRole(company + "_" + role + "." + ext) == (company, role)
  {
    var name := company + "_" + role + "." + ext;
    var dot := |company| + 1 + |role|;
    assert name[dot] == '.';
    assert forall k :: dot < k < |name| ==> name[k] != '.';
    assert forall k :: 0 <= k < |name| ==> name[k] != '/';
    assert name[0] != '.';
    assert Text.LastIndexOf(name, '.') == dot;
    assert name[..dot] == company + ['_'] + role;
    Text.SplitPrefix(company, role, '_');
    Text.SplitWithout(role, '_');
  }

  /** A name without `_` gives its whole stem as the company and `Unknown` as the role. */
  lemma CompanyRoleNoUnderscore(filename: string)
    requires '_' !in Stem(filename)
    ensures CompanyRole(filename) == (Stem(filename), "Unknown")
  {
    Text.SplitWithout(Stem(filename), '_');
  }

  function JobMetadata(documentId: nat, i: nat, company: string, role: string): Dict {
    [("document_id", IntValue(documentId)), ("document_type", StrValue("job_description")),
     ("chunk_index", IntValue(i)), ("company", StrValue(company)), ("role", StrValue(role))]
  }

  function JobSpecs(documentId: nat, filename: string, texts: seq<string>): (specs: seq<ChunkSpec>)
    ensures |specs| == |texts|
    ensures forall i :: 0 <= i < |texts| ==>
              specs[i] == ChunkSpec(texts[i], JobMetadata(documentId, i, CompanyRole(filename).0, CompanyRole(filename).1))
  {
    var cr := CompanyRole(filename);
    seq(|texts|, i requires 0 <= i < |texts| => ChunkSpec(texts[i], JobMetadata(documentId, i, cr.0, cr.1)))
  }

  // ---------------------------------------------------------------- indexing

  /** The chunks of `specs[..n]` as the database receives them: chunk i has index i and the
      first id the vector store returned for it, if any. `add_documents` catches its own
      failures and returns no ids, so `ids[i]` is empty exactly when that call failed. */
  function ChunksOf(documentId: nat, specs: seq<ChunkSpec>, ids: seq<seq<string>>, n: nat): (cs: seq<Chunk>)
    requires n <= |specs| && n <= |ids|
    ensures |cs| == n
    ensures forall i :: 0 <= i < n ==>
              cs[i].chunkIndex == i && cs[i].documentId == documentId
              && cs[i].text == specs[i].text && cs[i].metadata == specs[i].metadata
              && (ids[i] == [] <==> cs[i].vectorId.None?)
              && (ids[i] != [] ==> cs[i].vectorId == Some(ids[i][0]))
  {
    if n == 0 then []
    else
      var vid := if |ids[n - 1]| > 0 then Some(ids[n - 1][0]) else None;
      ChunksOf(documentId, specs, ids, n - 1) + [Chunk(documentId, n - 1, specs[n - 1].text, specs[n - 1].metadata, vid)]
  }

  /** What the vector store holds after the calls for `specs[..n]`: the entry of each chunk
      whose call returned ids, in order. A call that failed returned no ids and stored nothing. */
  function StoredEntries(specs: seq<ChunkSpec>, ids: seq<seq<string>>, n: nat): (e: seq<(string, Dict)>)
    requires n <= |specs| && n <= |ids|
    ensures |e| <= n
  {
    if n == 0 then []
    else
      var rest := StoredEntries(specs, ids, n - 1);
      if ids[n - 1] == [] then rest else rest + [(specs[n - 1].text, specs[n - 1].metadata)]
  }

  /** The store holds a chunk's entry exactly when some call for it returned ids, and holds
      every entry when every call did. */
  lemma {:induction false} StoredEntriesMembers(specs: seq<ChunkSpec>, ids: seq<seq<string>>, n: nat)
    requires n <= |specs| && n <= |ids|
    ensures var e := StoredEntries(specs, ids, n);
            (forall i :: 0 <= i < n && ids[i] != [] ==> (specs[i].text, specs[i].metadata) in e)
            && (forall x :: x in e ==> exists i :: 0 <= i < n && ids[i] != [] && x == (specs[i].text, specs[i].metadata))
            && ((forall i :: 0 <= i < n ==> ids[i] != []) ==> |e| == n)
  {
    if n > 0 {
      StoredEntriesMembers(specs, ids, n - 1);
    }
  }

  datatype Document = Document(filePath: string, fileType: string, documentType: string, originalFilename: string)

  /** The chunk table and the vector store. The vector store is not part of the session:
      what it received stays even when the session is rolled back. */
  class Index {
    var chunks: seq<Chunk>
    var vectors: seq<(string, Dict)>

    constructor ()
      ensures chunks == [] && vectors == []
    {
      chunks := [];
      vectors := [];
    }

    /** The loop both processors share: each chunk is added to the session and sent to the
        vector store, then the session is committed; a failed commit rolls every chunk back,
        while the vector store keeps the chunks it accepted. `ids[i]` is what the vector store
        returned for chunk i, empty when its call failed. */
    method IndexChunks(documentId: nat, specs: seq<ChunkSpec>, ids: seq<seq<string>>, commitOk: bool)
      returns (ok: bool)
      requires |ids| == |specs|
      modifies this
      ensures vectors == old(vectors) + StoredEntries(specs, ids, |specs|)
      ensures ok == commitOk
      ensures chunks == old(chunks) + (if ok then ChunksOf(documentId, specs, ids, |specs|) else [])
    {
      var pending: seq<Chunk> := [];
      var i := 0;
      while i < |specs|
        invariant 0 <= i <= |specs|
        invariant pending == ChunksOf(documentId, specs, ids, i)
        invariant vectors == old(vectors) + StoredEntries(specs, ids, i)
        invariant chunks == old(chunks)
      {
        if |ids[i]| > 0 {
          vectors := vectors + [(specs[i].text, specs[i].metadata)];
        }
        var vid := if |ids[i]| > 0 then Some(ids[i][0]) else None;
        pending := pending + [Chunk(documentId, i, specs[i].text, specs[i].metadata, vid)];
        i := i + 1;
      }
      if !commitOk {
        return false;
      }
      chunks := chunks + pending;
      return true;
    }

    /** `process_document`: an unknown id, an empty text or an unknown document type gives
        False and changes nothing; a roster that cannot be read again gives False; otherwise
        the matching processor runs. `rows` is the roster read again by the student
        processor, `texts` the splitter's chunks, and `ids` holds one vector-store reply per
        chunk that processor makes. */
    method ProcessDocument(documents: map<nat, Document>, documentId: nat, read: FileKind -> Result<string, string>,
                           rows: Result<seq<Records.Row>, string>, texts: seq<string>,
                           ids: seq<seq<string>>, commitOk: bool)
      returns (ok: bool)
      requires documentId in documents && documents[documentId].documentType == "student_data" && rows.Ok? ==>
                 |rows.value| == |ids|
      requires documentId in documents && documents[documentId].documentType == "job_description" ==>
                 |texts| == |ids|
      modifies this
      ensures documentId !in documents ==> !ok && chunks == old(chunks) && vectors == old(vectors)
      ensures documentId in documents && ExtractText(documents[documentId].fileType, read) == "" ==>
                !ok && chunks == old(chunks) && vectors == old(vectors)
      ensures documentId in documents && documents[documentId].documentType !in ["student_data", "job_description"] ==>
                !ok && chunks == old(chunks) && vectors == old(vectors)
      ensures documentId in documents && documents[documentId].documentType == "student_data" && rows.Err? ==>
                !ok && chunks == old(chunks) && vectors == old(vectors)
      ensures documentId in documents && ExtractText(documents[documentId].fileType, read) != ""
              && documents[documentId].documentType == "student_data" && rows.Ok? ==>
                ok == commitOk
                && vectors == old(vectors) + StoredEntries(StudentSpecs(documentId, rows.value), ids, |ids|)
                && chunks == old(chunks) + (if ok then ChunksOf(documentId, StudentSpecs(documentId, rows.value), ids, |ids|) else [])
      ensures documentId in documents && ExtractText(documents[documentId].fileType, read) != ""
              && documents[documentId].documentType == "job_description" ==>
                ok == commitOk
                && vectors == old(vectors) + StoredEntries(JobSpecs(documentId, documents[documentId].originalFilename, texts), ids, |ids|)
                && chunks == old(chunks)
                   + (if ok then ChunksOf(documentId, JobSpecs(documentId, documents[documentId].originalFilename, texts), ids, |ids|) else [])
    {
      if documentId !in documents {
        return false;
      }
      var document := documents[documentId];
      var text := ExtractText(document.fileType, read);
      if text == "" {
        return false;
      }
      if document.documentType == "student_data" {
        if rows.Err? {
          return false;
        }
        ok := IndexChunks(documentId, StudentSpecs(documentId, rows.value), ids, commitOk);
      } else if document.documentType == "job_description" {
        ok := IndexChunks(documentId, JobSpecs(documentId, document.originalFilename, texts), ids, commitOk);
      } else {
        return false;
      }
    }
  }

  /** A committed roster gives one chunk per row, chunk i carrying row i's text and
      metadata and the index i. */
  lemma RosterChunks(documentId: nat, rows: seq<Records.Row>, ids: seq<seq<string>>)
    requires |ids| == |rows|
    ensures var cs := ChunksOf(documentId, StudentSpecs(documentId, rows), ids, |rows|);
            |cs| == |rows|
            && forall i :: 0 <= i < |rows| ==>
                 cs[i].chunkIndex == i && cs[i].text == RowText(rows[i])
                 && cs[i].metadata == StudentMetadata(documentId, i, rows[i])
  {
  }
}
