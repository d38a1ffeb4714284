/** A worker's use of its trie: files loaded and added one after the other, words looked up, files ranked. */
module Indexing {
  import opened Wrappers
  import opened Words
  import opened Postings
  import opened PostingLists
  import opened TrieStore
  import opened TextProgress
  import opened IndexTheorems
  import opened TextMap
  import opened Tries
  import opened CountResults

  /** One text into a new trie, then a word looked up: its per-line frequencies. */
  method IndexAndSearch(allTextsRoot: Text?, N: int, fileName: string, word: string, ghost texts: seq<Text>)
    returns (postings: PlistNode?, ghost list: seq<PlistNode>)
    requires TextList(allTextsRoot, texts) && 0 <= N <= |texts|
    modifies texts`numberOfWords
    ensures IsList(postings, list) && Values(list) == Frequencies(Contents(texts), N, word, fileName)
    ensures postings == null <==> forall i :: 0 <= i < N ==> word !in Split(texts[i].content)
  {
    hide Split, Frequencies, IsFrequencyList, Built;
    var trie := new Trie();
    var words := trie.CreateTrieFromTextMap(allTextsRoot, N, fileName, 0, texts);
    postings, list := trie.SearchWordInTrie(word);
    FreshIndex(trie.store, Contents(texts), N, fileName, word);
  }

  /** A file of numbered lines, loaded, indexed and searched. */
  method IndexFile(file: string, fileName: string, word: string)
    returns (postings: PlistNode?, ghost list: seq<PlistNode>, ghost outcome: Outcome)
    ensures outcome == LoadFrom(file, -1).outcome
    ensures !outcome.Loaded? ==> postings == null && list == []
    ensures IsList(postings, list)
    ensures forall contents :: Numbered(LinesOf(file), -1, contents) ==>
                                 && Values(list) == Frequencies(contents, |contents|, word, fileName)
                                 && (postings == null <==>
                                       forall i :: 0 <= i < |contents| ==> word !in Split(contents[i]))
  {
    hide LoadFrom, Numbered, Frequencies, Split;
    forall contents ensures LoadFrom(file, -1).outcome == Loaded(contents) <==> Numbered(LinesOf(file), -1, contents) {
      LoadedExactly(file, -1, contents);
    }
    var T, N, bytes;
    ghost var texts;
    T, N, bytes, outcome, texts := AddFileToMaps(file, 0, 0);
    if T == null {
      return null, [], outcome;
    }
    postings, list := IndexAndSearch(T, N, fileName, word, texts);
  }

  lemma {:induction false} RootIsFirst(trie: Trie)
    requires trie.Valid() && trie.root != null
    ensures WellFormed(trie.store) && trie.store != [] && trie.RootLetter(0) == Some(trie.store[0].letter)
  {
    assert Mirrors(trie.nodes, trie.nodes[0], trie.store[0]);
  }

  /** A later text into a trie that has a root: it is simply added exactly if that is safe. */
  method IndexAnother(trie: Trie, allTextsRoot: Text?, N: int, fileName: string, ghost texts: seq<Text>)
    requires trie.Valid() && trie.root != null && TextList(allTextsRoot, texts) && 0 <= N <= |texts|
    modifies trie, trie.nodes, trie.slips, texts`numberOfWords
    ensures WellFormed(old(trie.store)) && old(trie.store) != [] && trie.Valid()
    ensures PlainUnion(old(trie.store), trie.store, Contents(texts), N, fileName)
            <==> Safe(old(trie.store), Contents(texts), N)
  {
    RootIsFirst(trie);
    ghost var before := trie.store;
    var words := trie.CreateTrieFromTextMap(allTextsRoot, N, fileName, 0, texts);
    UnionExactlyWhenSafe(before, trie.store, Contents(texts), N, fileName);
  }

  /** MAXCOUNT: the file with the most lines that have the word, and how many they are. */
  method FileWithMost(trie: Trie, word: string) returns (head: CountNode?)
    requires trie.Valid()
    ensures head == null <==> Lookup(trie.store, word) == []
    ensures head != null ==>
              var posts := Lookup(trie.store, word);
              && head.wordFrq == PostingsOf(posts, |posts|, head.fileName)
              && forall file :: PostingsOf(posts, |posts|, file) <= head.wordFrq
  {
    var postings, list := trie.SearchWordInTrie(word);
    head := MaxCount(postings, list);
  }

  /** MINCOUNT: the file with the fewest, among those that have the word. */
  method FileWithFewest(trie: Trie, word: string) returns (head: CountNode?)
    requires trie.Valid()
    ensures head == null <==> Lookup(trie.store, word) == []
    ensures head != null ==>
              var posts := Lookup(trie.store, word);
              && head.wordFrq == PostingsOf(posts, |posts|, head.fileName)
              && forall p :: p in posts ==> head.wordFrq <= PostingsOf(posts, |posts|, p.file)
  {
    var postings, list := trie.SearchWordInTrie(word);
    head := MinCount(postings, list);
  }
}
