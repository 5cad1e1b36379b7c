/** References that name their environment, and the keys the stores use for them
    (`packages/client-runtime/src/scoped.ts`). */
module Scoped {

  datatype ThreadRef = ThreadRef(environmentId: string, threadId: string)

  datatype ProjectRef = ProjectRef(environmentId: string, projectId: string)

  /** `scopedThreadKey` */
  function ThreadKey(ref: ThreadRef): string {
    ref.environmentId + ":" + ref.threadId
  }
}
