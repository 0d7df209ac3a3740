/** The upload side of peer.c on its linked lists. */
module UploadLists {
  import opened HashLists
  import opened Uploads

  class UploadConn {
    const uploading: HashList
    const uploaded: HashList
    var concurr: int
    var max: int
    ghost var leaked: int

    ghost predicate Valid()
      reads uploading, uploaded, uploading.nodes, uploaded.nodes
    {
      && uploading != uploaded && uploading.Valid() && uploaded.Valid()
      && forall n :: n in uploading.nodes ==> n !in uploaded.nodes
    }

    ghost function View(): Up
      reads this, uploading, uploaded
    {
      Up(uploading.Contents(), uploaded.Contents(), concurr, max, leaked)
    }

    /** The upload part of init_peerme. */
    constructor (max: nat)
      ensures Valid() && View() == Idle(max)
    {
      uploading := new HashList();
      uploaded := new HashList();
      this.max := max;
      concurr, leaked := 0, 0;
    }

    /** The GET case of dealwithincomepack, with init_upload. */
    method OnGetPacket(addr: Addr, hash: Hash, haslist: HashList)
      requires Valid() && haslist.Valid() && haslist != uploading
      modifies this`concurr, this`leaked, uploading
      ensures Valid() && View() == OnGet(old(View()), haslist.Contents(), addr, hash)
    {
      if concurr >= max { return; }
      var busy := FindNodeByAddr(uploading.head, addr, uploading.nodes);
      if busy != null { return; }
      var ifUploaded := FindNodeByAddr(uploaded.head, addr, uploaded.nodes);
      if ifUploaded == null || ifUploaded.item.hash != hash {
        InitUpload(addr, hash, haslist);
      }
    }

    /** init_upload */
    method InitUpload(addr: Addr, hash: Hash, haslist: HashList)
      requires Valid() && haslist.Valid() && haslist != uploading
      modifies this`concurr, this`leaked, uploading
      ensures Valid() && View() == Admitted(old(View()), haslist.Contents(), addr, hash)
    {
      hide HashIndex;
      concurr := concurr + 1;
      var chunk := FindNode(haslist.head, hash, haslist.nodes);
      if chunk != null {
        var node := new Node(Item(addr, hash, chunk.item.chunkid));
        uploading.AppendNode(node);
      } else {
        leaked := leaked + 1;
      }
    }

    /** The step of peer_run for an upload whose last packet was acknowledged. */
    method FinishUpload(curr: Node, ghost k: nat)
      requires Valid() && k < |uploading.nodes| && uploading.nodes[k] == curr
      modifies this`concurr, uploading, uploaded, (set n | n in uploading.nodes)`next
      ensures Valid() && View() == Sent(old(View()), k)
    {
      ghost var nodes := uploading.nodes;
      MoveNode(uploaded, uploading, curr, k);
      concurr := concurr - 1;
      ItemsWithout(nodes, k);
    }

    /** abort_upload */
    method AbortUpload(todel: Node?, ghost k: nat)
      requires Valid() && (todel != null ==> k < |uploading.nodes| && uploading.nodes[k] == todel)
      modifies this`concurr, uploading, (set n | n in uploading.nodes)`next
      ensures Valid() && View() == if todel == null then old(View()) else Aborted(old(View()), k)
    {
      if todel == null { return; }
      Remove(todel, k);
      concurr := concurr - 1;
    }

    method Remove(todel: Node, ghost k: nat)
      requires Valid() && k < |uploading.nodes| && uploading.nodes[k] == todel
      modifies uploading, (set n | n in uploading.nodes)`next
      ensures Valid() && uploading.Contents() == Without(old(uploading.Contents()), k)
    {
      ghost var nodes := uploading.nodes;
      uploading.DeleteNode(todel, k);
      assert forall n :: n in uploading.nodes ==> n in nodes;
      hide Items, Without;
      ItemsWithout(nodes, k);
    }
  }
}
