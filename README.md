# Document loading and classification for the CodeIgniter vector-database builder

The ingestion script `src/prepare_vectordb.py` reads the `.txt` files of a
documentation directory and tags each loaded document with two metadata
fields: `source_file` and `doc_type`. It then splits the documents into
chunks and stores their embeddings in a Chroma collection. Only two pieces
of that pipeline are the repository's own logic, and this project models
both:

- **The filename classifier** `DocumentProcessor._identify_doc_type`
  (module `Classifier`, file `classifier.dfy`). It lowercases the name and
  tests it for keywords in a fixed order, and the first test that matches
  wins. The category is the datatype `DocType`, and `Label` gives the
  string stored in the metadata. The substring test `pat in s` is a
  left-to-right scan, `Contains`. It is proved equal to a reference meaning,
  `Occurs` ("some position of `s` begins `pat`"). The whole priority chain
  is proved equal to an independent statement of the rules, `FirstMatch`
  ("the category's rule holds and no rule before it holds").
- **The loader** `DocumentProcessor.load_documents` (module `Loader`, file
  `loader.dfy`). The file system and LangChain's `TextLoader` are inputs:
  - the directory is an `Option<seq<string>>`, where `None` means it does
    not exist and `Some` holds the names `os.listdir` returns, in that order;
  - loading a file is a function `load: string -> LoadOutcome`. It gives
    `LoadFailed` when `TextLoader.load` raises, and otherwise the documents
    it returned.

  The method `LoadDocuments` keeps the two nested loops of the source. The
  inner loop is the method `StampDocuments`, which sets `source_file` and
  `doc_type` on every document. `LoadDocuments` is proved equal to the
  specification function `LoadDocumentsSpec`. The lemmas then prove the
  loader's properties about that function: the error cases, the filtering,
  the skip-and-continue policy, order, length and provenance.

`wrappers.dfy` holds `Option` and `Result`. `seqs.dfy` holds generic facts
about slicing and concatenating sequences, which the loader's proofs use.

The source raises `FileNotFoundError` both for a missing directory and for a
directory without `.txt` files; only the message differs. The model keeps
the two cases apart as `DirectoryNotFound` and `NoTxtFiles`.

## Model

| member | source | states |
|---|---|---|
| `Classifier.LowerStr` | src/prepare_vectordb.py:61 | the lowercased name has the same length as the name, and each character is that character lowercased |
| `Classifier.Contains` | src/prepare_vectordb.py:63-75 | the scanning substring test used by every `in` of the classifier is true exactly when the keyword appears at some position of the name |
| `Classifier.IdentifyDocType` | src/prepare_vectordb.py:59-78 | the category returned is the first one, in the order ci3 without ci4, ci4, upgrade/migration, model, view, helper, library/lib, general, whose rule holds of the lowercased name |
| `Classifier.IdentifyIsFirstMatch` | src/prepare_vectordb.py:59-78 | the classifier returns category `d` if and only if `d`'s rule holds of the lowercased name and no rule earlier in the order (ci3 without ci4, ci4, upgrade/migration, model, view, helper, library/lib, general) holds |
| `Classifier.LabelTotal` | src/prepare_vectordb.py:59-78 | every filename gets one of the eight labels |
| `Classifier.LabelInjective` | src/prepare_vectordb.py:63-78 | distinct categories are stored as distinct labels |
| `Classifier.CaseInsensitive` | src/prepare_vectordb.py:61 | two names that differ only in letter case get the same category |
| `Classifier.IdentifyOfLowered` | src/prepare_vectordb.py:61 | lowercasing a name before classifying it does not change its category |
| `Classifier.Ci4Wins` | src/prepare_vectordb.py:63-66 | a name containing "ci4" in any case is `ci4_documentation`, even if it also contains "ci3" |
| `Classifier.Ci3WithoutCi4` | src/prepare_vectordb.py:63-64 | a name containing "ci3" and not "ci4" is `ci3_documentation` |
| `Classifier.NoKeywordIsGeneral` | src/prepare_vectordb.py:63-78 | a name containing none of the nine keywords is `general` |
| `Classifier.NotGeneralHasKeyword` | src/prepare_vectordb.py:63-78 | a name whose category is not `general` contains at least one keyword |
| `Classifier.LibrarySubsumedByLib` | src/prepare_vectordb.py:75 | every name containing "library" contains "lib", so the "library" test never decides the outcome on its own |
| `Classifier.ExampleModelFirst` | src/prepare_vectordb.py:69-74 | for "model_view_helper.txt" the first rule that holds is the model rule, ahead of view and helper, and the classifier returns `model_docs` |
| `Classifier.ExampleBothVersions` | src/prepare_vectordb.py:63-66 | for "ci3_ci4_guide.txt" the first rule that holds is the ci4 rule, and the classifier returns `ci4_documentation` |
| `Classifier.ExampleGeneral` | src/prepare_vectordb.py:63-78 | for "notes.txt" no keyword rule holds, and the classifier returns `general` |
| `Classifier.ExampleLibInsideWord` | src/prepare_vectordb.py:75-76 | for "calibration" the first rule that holds is the library rule, because "lib" matches inside the word, and the classifier returns `library_docs` |
| `Loader.EndsWith` | src/prepare_vectordb.py:32 | the suffix test holds exactly when the name is some prefix followed by the suffix, compared character by character with case kept |
| `Loader.TxtFiles` | src/prepare_vectordb.py:32 | a name is kept exactly when it is in the listing and ends in ".txt", and the kept list is no longer than the listing |
| `Loader.TxtFilesAppend` | src/prepare_vectordb.py:32 | filtering distributes over concatenation, so kept names stay in listing order |
| `Loader.UpperCaseSuffixIgnored` | src/prepare_vectordb.py:32 | the suffix test is case-sensitive: a name ending in ".TXT" fails it and is not kept from any listing |
| `Loader.Stamp` | src/prepare_vectordb.py:46-48 | a stamped document has `source_file` set to the filename and `doc_type` set to the classifier's label; its text and every other metadata key are unchanged |
| `Loader.StampAll` | src/prepare_vectordb.py:46-48 | one document per loaded document, in the same order, each stamped; every one has `source_file` equal to the filename |
| `Loader.StampDocuments` | src/prepare_vectordb.py:46-48 | the inner loop returns, position by position, each document of the file with both keys stamped |
| `Loader.LoadDocuments` | src/prepare_vectordb.py:25-57 | the loader's result or error is exactly `LoadDocumentsSpec` of the listing and the load function |
| `Loader.Contribution` | src/prepare_vectordb.py:41-54 | a file adds as many documents as its load returned, none when the load raises; the i-th has the i-th loaded document's text, its keys plus `source_file` and `doc_type`, `source_file` equal to the filename and `doc_type` equal to the classifier's label |
| `Loader.Collect` | src/prepare_vectordb.py:39-54 | every collected document has a `source_file` naming one of the processed files |
| `Loader.LoadDocumentsSpec` | src/prepare_vectordb.py:29-54 | loading fails with DirectoryNotFound exactly when the directory is missing, and with NoTxtFiles exactly when no name ends in ".txt"; otherwise it returns the documents collected from the kept files |
| `Loader.CollectAppend` | src/prepare_vectordb.py:39-50 | the documents of two file lists put together are the documents of the first list followed by those of the second |
| `Loader.FailedFileSkipped` | src/prepare_vectordb.py:41-54 | a file whose load fails adds no documents, and the files after it are still loaded |
| `Loader.CollectLength` | src/prepare_vectordb.py:39-50 | the number of returned documents is the sum of the document counts of the successful loads |
| `Loader.OneDocumentPerFile` | src/prepare_vectordb.py:39-56 | when every readable file yields one document, the result has one document per file minus one per unreadable file (five files with one unreadable give four) |
| `Loader.CollectProvenance` | src/prepare_vectordb.py:39-50 | every returned document is a document of some kept file's successful load, stamped with that file's name |
| `Loader.CollectComplete` | src/prepare_vectordb.py:39-50 | every document of every successful load appears in the result, stamped with its file's name |
| `Loader.StampedMetadata` | src/prepare_vectordb.py:29-57 | every returned document has a `source_file` naming a listed ".txt" file and a `doc_type` equal to the classifier's label for that name |

## Left out

- `DocumentProcessor.__init__` (src/prepare_vectordb.py:15-23): it builds the HuggingFace embedding model `sentence-transformers/all-MiniLM-L6-v2` on the CPU. This is a foreign library with floating-point numerics.
- `split_documents` (src/prepare_vectordb.py:80-94): the splitting algorithm is LangChain's `RecursiveCharacterTextSplitter`, which is not part of this model. The script only passes it constants: chunk size 1000, overlap 200, `len` as the length function, and the separators `"\n\n"`, `"\n"`, `". "`, `"! "`, `"? "`, `", "`, `" "`, `""`.
- `create_vectordb` (src/prepare_vectordb.py:96-121): the directory creation, the Chroma collection `ci_migration_docs` under `vectordb`, and the vector count all belong to the external store.
- `main` (src/prepare_vectordb.py:123-157): the console banner, the troubleshooting text and the top-level exception handler hold no logic to prove.
- Failures outside the modelled ones. The listing is either missing or a list of names, so a path that exists but cannot be listed is not modelled. That covers a regular file (`NotADirectoryError`) and a directory without read permission (`PermissionError`): `os.listdir` at src/prepare_vectordb.py:32 then raises outside the `try`, a third fatal exit that `LoadDocumentsSpec` does not have. Likewise a file counts as failed only when its load raises before its documents are added at line 50. If the progress `print` at line 51 raises, the source keeps that file's documents and still runs the `except` branch; `FailedFileSkipped` and `Contribution` do not cover that case.
- All `print` output, including the per-file progress lines and the message for a skipped file.
- The real file system: `os.path.exists` and `os.listdir` become the optional listing, taken in whatever order it is given. `os.path.join` with the data directory is not modelled, so the load function is keyed by the bare filename. An entry named `*.txt` that is not a readable file, such as a subdirectory, is covered by a load that fails.
- `TextLoader`'s UTF-8 decoding and the documents it builds: the load function is an arbitrary input, so the model holds for any loader output, including the `source` key it sets.
- Metadata values are strings. The in-place update of each document's `metadata` dict is modelled by replacing the document in a local sequence. The documents `TextLoader` returns are new objects that nothing else refers to, so no aliasing is lost.
- `Classifier.LowerStr`: only ASCII `A`-`Z` is folded, while Python's `str.lower` follows Unicode. The only non-ASCII characters that `str.lower` turns into ASCII letters are U+0130 (to `i` followed by U+0307) and U+212A (to `k`). No keyword contains `k` or ends in `i`, so the categories agree. This argument is not proved in Dafny.
